/**
 String-valued classes inside lookbehinds. The generator wraps the whole class in
 one pair of `Prev` instructions, so a string is matched forward from one
 character back. Backward class code is right for every input exactly when no
 text can contain any of the class's strings, and a repeated one need not even halt.
 */
module BackwardStrings {
  import opened Basics
  import opened Characters
  import opened CharacterRanges
  import opened Pattern
  import opened Matcher
  import opened Machine
  import opened Code
  import opened Runs
  import opened Leaves
  import opened CompiledPrograms

  // ---- A lookbehind that never halts ----

  const PLAIN := Modifiers(false, false, false)

  /** The class `[\q{ab}]` of Unicode Sets mode. */
  const PAIR := CharacterClass([], [[97, 98]], false)

  /** The pattern `(?<=[\q{ab}]*)`. */
  const PATTERN :=
    Expression([Sequence([Term(LookAround(false, true, Expression([Sequence([Term(Class(PAIR), Some(Quantifier(0, None, true)))])])), None)])])

  const LOOPING: seq<Instruction> :=
    [SaveStart(0), LookAhead(false, 9), Split(3, 8), Prev, Char(97, false), Char(98, false), Prev, Jump(2),
     LookAheadEnd(false), SaveEnd(0), Match]

  lemma PairCode(base: nat)
    ensures CodeClass(PLAIN, PAIR, true, base) == [Prev, Char(97, false), Char(98, false), Prev]
  {
    var s: seq<nat> := [97, 98];
    assert PAIR.strings[1..] == [];
    assert LongestFirst(PAIR.strings[1..]) == [];
    assert InsertString(s, []) == [s];
    assert LongestFirst(PAIR.strings) == [s];
    assert s[1..] == [98] && s[1..][1..] == [];
    assert StringCode([98], false) == [Char(98, false)];
    assert StringCode(s, false) == [Char(97, false), Char(98, false)];
    assert [s][1..] == [] && StringParts([], false) == [];
    assert StringParts([s], false) == [StringCode(s, false)];
    assert ClassParts(PAIR, false) == [StringCode(s, false)];
  }

  /** The atoms of the pattern. */
  function Star(): Term {
    Term(Class(PAIR), Some(Quantifier(0, None, true)))
  }

  const ROUND: seq<Instruction> := [Prev, Char(97, false), Char(98, false), Prev]

  lemma BodyCode(canonicalize: Canonicalize)
    ensures CodeBody(canonicalize, PLAIN, Class(PAIR), true, 3, 0) == ROUND
    ensures CodeRequired(canonicalize, PLAIN, Class(PAIR), 0, true, 2, 0) == []
  {
    PairCode(3);
    assert CodeAtom(canonicalize, PLAIN, Class(PAIR), true, 3, 0) == ROUND;
    assert CodeReset(CaptureRange(Class(PAIR))) == [];
    assert CodeIteration(canonicalize, PLAIN, Class(PAIR), true, 3, 0) == ROUND;
  }

  lemma StarCode(canonicalize: Canonicalize)
    ensures CodeTerm(canonicalize, PLAIN, Star(), true, 2, 0) == [Split(3, 8)] + ROUND + [Jump(2)]
  {
    hide CodeBody;
    hide CodeRequired;
    BodyCode(canonicalize);
    var q := Quantifier(0, None, true);
    assert CodeOptional(canonicalize, PLAIN, Class(PAIR), None, true, true, 2, 0) == [Split(3, 8)] + ROUND + [Jump(2)];
    assert CodeQuantified(canonicalize, PLAIN, Class(PAIR), q, true, 2, 0)
        == [] + CodeOptional(canonicalize, PLAIN, Class(PAIR), None, true, true, 2, 0);
    assert CodeTerm(canonicalize, PLAIN, Star(), true, 2, 0) == CodeQuantified(canonicalize, PLAIN, Class(PAIR), q, true, 2, 0);
  }

  lemma OneAlternative(canonicalize: Canonicalize, mods: Modifiers, term: Term, backward: bool, base: nat)
    ensures CodeAlternatives(canonicalize, mods, [Sequence([term])], backward, base, 0)
         == CodeTerm(canonicalize, mods, term, backward, base, 0)
  {
    hide CodeTerm;
    var terms := [term];
    assert Rest(terms, backward) == [] && First(terms, backward) == term;
    assert CodeTerms(canonicalize, mods, [], backward, base + |CodeTerm(canonicalize, mods, term, backward, base, 0)|, 0) == [];
    assert CodeTerms(canonicalize, mods, terms, backward, base, 0) == CodeTerm(canonicalize, mods, term, backward, base, 0);
    assert [Sequence([term])][0].terms == terms;
  }

  function Look(): Atom {
    LookAround(false, true, Expression([Sequence([Star()])]))
  }

  lemma LookCode(canonicalize: Canonicalize)
    ensures CodeAtom(canonicalize, PLAIN, Look(), false, 1, 0)
         == [LookAhead(false, 9), Split(3, 8)] + ROUND + [Jump(2), LookAheadEnd(false)]
  {
    hide CodeTerm;
    hide CodeTerms;
    hide CodeAlternativesTo;
    hide AlternativesLength;
    StarCode(canonicalize);
    OneAlternative(canonicalize, PLAIN, Star(), true, 2);
    assert CodeAlternatives(canonicalize, PLAIN, [Sequence([Star()])], true, 2, 0) == [Split(3, 8)] + ROUND + [Jump(2)];
  }

  lemma LoopingIsCompiled(canonicalize: Canonicalize)
    ensures Program(canonicalize, PLAIN, PATTERN) == LOOPING
  {
    LookCode(canonicalize);
    PlainTerm(canonicalize, Look(), 1);
    OneAlternative(canonicalize, PLAIN, Term(Look(), None), false, 1);
    assert PATTERN.alternatives == [Sequence([Term(Look(), None)])];
    assert Program(canonicalize, PLAIN, PATTERN)
        == [SaveStart(0)] + ([LookAhead(false, 9), Split(3, 8)] + ROUND + [Jump(2), LookAheadEnd(false)]) + [SaveEnd(0), Match];
  }

  lemma PlainTerm(canonicalize: Canonicalize, atom: Atom, base: nat)
    ensures CodeTerm(canonicalize, PLAIN, Term(atom, None), false, base, 0) == CodeAtom(canonicalize, PLAIN, atom, false, base, 0)
  {
  }

  function Looping(env: Env): Engine {
    Engine(env, LOOPING)
  }

  /** One round of the loop at position 1 of the input "ab" comes back to position 1. */
  lemma Round(env: Env, memory: Memory, controls: seq<Frame>)
    requires env.input == [97, 98]
    ensures var m, upper := Looping(env), controls + [Frame(Resume(8), 1, memory)];
            && Step(m, Running(2, 1, memory, controls)) == Running(3, 1, memory, upper)
            && Step(m, Running(3, 1, memory, upper)) == Running(4, 0, memory, upper)
            && Step(m, Running(4, 0, memory, upper)) == Running(5, 1, memory, upper)
            && Step(m, Running(5, 1, memory, upper)) == Running(6, 2, memory, upper)
            && Step(m, Running(6, 2, memory, upper)) == Running(7, 1, memory, upper)
            && Step(m, Running(7, 1, memory, upper)) == Running(2, 1, memory, upper)
  {
  }

  lemma {:induction false} NeverHalts(env: Env, memory: Memory, controls: seq<Frame>, k: nat)
    requires env.input == [97, 98]
    ensures !Terminal(After(Looping(env), Running(2, 1, memory, controls), k))
    decreases k
  {
    Round(env, memory, controls);
    var m, upper := Looping(env), controls + [Frame(Resume(8), 1, memory)];
    if k >= 6 {
      NeverHalts(env, memory, upper, k - 6);
      assert After(m, Running(7, 1, memory, upper), k - 5) == After(m, Running(2, 1, memory, upper), k - 6);
      assert After(m, Running(6, 2, memory, upper), k - 4) == After(m, Running(2, 1, memory, upper), k - 6);
      assert After(m, Running(5, 1, memory, upper), k - 3) == After(m, Running(2, 1, memory, upper), k - 6);
      assert After(m, Running(4, 0, memory, upper), k - 2) == After(m, Running(2, 1, memory, upper), k - 6);
      assert After(m, Running(3, 1, memory, upper), k - 1) == After(m, Running(2, 1, memory, upper), k - 6);
    } else if k == 5 {
      assert !Terminal(After(m, Running(6, 2, memory, upper), 1));
      assert !Terminal(After(m, Running(5, 1, memory, upper), 2));
      assert !Terminal(After(m, Running(4, 0, memory, upper), 3));
      assert !Terminal(After(m, Running(3, 1, memory, upper), 4));
    } else if k >= 3 {
      assert !Terminal(After(m, Running(5, 1, memory, upper), k - 3));
      assert !Terminal(After(m, Running(4, 0, memory, upper), k - 2));
      assert !Terminal(After(m, Running(3, 1, memory, upper), k - 1));
    }
  }

  /**
   Without the hypothesis on strings in lookbehinds an attempt need not halt: the
   pattern `(?<=[\q{ab}]*)` runs forever at position 1 of the input "ab".
   */
  lemma LookbehindLoopsForever(env: Env, k: nat)
    requires env.input == [97, 98]
    ensures ValidPattern(PATTERN, 1) && !NoBackwardStringsIn(PATTERN.alternatives, false)
    ensures var m := Engine(env, Program(env.canonicalize, PLAIN, PATTERN));
            !Terminal(After(m, Start(1, 0, 1), k))
  {
    hide Program;
    hide ValidPattern;
    hide NoBackwardStringsIn;
    hide After;
    LoopingIsCompiled(env.canonicalize);
    PatternIsValid();
    LoopsForever(env, k);
  }

  lemma EntersLoop(env: Env, saved: Memory)
    requires saved == SetCapture(Blank(1, 0), 0, Some(1))
    ensures Step(Looping(env), Start(1, 0, 1)) == Running(1, 1, saved, [])
    ensures Step(Looping(env), Running(1, 1, saved, [])) == Running(2, 1, saved, [Frame(Assertion(false, 9), 1, saved)])
  {
  }

  lemma LoopsForever(env: Env, k: nat)
    requires env.input == [97, 98]
    ensures !Terminal(After(Looping(env), Start(1, 0, 1), k))
  {
    hide Step;
    hide Looping;
    hide SetCapture;
    var m := Looping(env);
    var saved := SetCapture(Blank(1, 0), 0, Some(1));
    var controls := [Frame(Assertion(false, 9), 1, saved)];
    EntersLoop(env, saved);
    if k >= 2 {
      NeverHalts(env, saved, controls, k - 2);
      assert After(m, Running(1, 1, saved, []), k - 1) == After(m, Running(2, 1, saved, controls), k - 2);
    }
  }

  lemma PatternIsValid()
    ensures ValidPattern(PATTERN, 1) && !NoBackwardStringsIn(PATTERN.alternatives, false)
  {
    var inner := Expression([Sequence([Star()])]);
    var look := LookAround(false, true, inner);
    assert Normalized(PAIR.ranges) && ValidClass(PAIR);
    assert [Star()][1..] == [] && [Sequence([Star()])][1..] == [];
    assert WellFormedTerm(Star(), 1, 1, true) && TermGroups(Star()) == 0;
    assert WellFormedTerms([Star()], 1, 1, true) && TermsGroups([Star()]) == 0;
    assert WellFormedAlternatives(inner.alternatives, 1, 1, true) && AlternativesGroups(inner.alternatives) == 0;
    assert WellFormed(look, 1, 1, true) && GroupCount(look) == 0;
    var outer := Term(look, None);
    assert [outer][1..] == [] && [Sequence([outer])][1..] == [];
    assert WellFormedTerm(outer, 1, 1, true) && TermGroups(outer) == 0;
    assert WellFormedTerms([outer], 1, 1, true) && TermsGroups([outer]) == 0;
    assert WellFormedAlternatives(PATTERN.alternatives, 1, 1, true) && AlternativesGroups(PATTERN.alternatives) == 0;
    assert !NoBackwardStrings(Class(PAIR), true);
    assert !NoBackwardStringsInTerms([Star()], true);
    assert !NoBackwardStringsIn(inner.alternatives, true);
    assert !NoBackwardStrings(look, false);
    assert !NoBackwardStringsInTerms([outer], false);
  }

  // ---- When backward class code is right ----

  function ClassEngine(env: Env, mods: Modifiers, class_: CharacterClass): Engine {
    Engine(env, CodeClass(mods, class_, true, 0) + [Match])
  }

  /** On this input the code of the class, run backward, yields what the reference matcher says. */
  ghost predicate RightOn(mods: Modifiers, class_: CharacterClass, env: Env, x: Cursor, memory: Memory) {
    Valid(env, x) && Ready(x, memory, 0, 0) ==>
      Yields(ClassEngine(env, mods, class_), Running(0, x.position, memory, []), |CodeClass(mods, class_, true, 0)|,
             MatchClass(env, mods, Class(class_), true, x), [], Footing(memory, 0, 0, 0))
  }

  /** Case folding leads to no surrogate but from itself. */
  ghost predicate KeepsSurrogates(canonicalize: nat -> nat) {
    forall c: nat :: 0xd800 <= canonicalize(c) <= 0xdfff ==> canonicalize(c) == c
  }

  /** Class strings exist in Unicode mode only. */
  ghost predicate RightBackward(mods: Modifiers, class_: CharacterClass) {
    forall env: Env, x, memory :: env.unicode && KeepsSurrogates(env.canonicalize) ==> RightOn(mods, class_, env, x, memory)
  }

  /** The parser keeps strings of one character among the ranges. */
  predicate NoShortStrings(class_: CharacterClass) {
    forall s :: s in class_.strings ==> |s| != 1
  }

  /** A text may contain the string: no high surrogate in it stands before a low one, to be read as one character. */
  predicate Readable(s: seq<nat>) {
    forall i, j :: 0 <= i && j == i + 1 < |s| ==> !(IsHighSurrogate(s[i]) && IsLowSurrogate(s[j]))
  }

  predicate NoneReadable(class_: CharacterClass) {
    forall s :: s in class_.strings ==> !Readable(s)
  }

  predicate CodePoints(s: seq<nat>) {
    forall i :: 0 <= i < |s| ==> s[i] <= MAX_CODE_POINT
  }

  // ---- Two ways to halt exclude each other ----

  predicate LastStep(m: Engine, c: Config) {
    !Terminal(c) && Terminal(Step(m, c))
  }

  lemma {:induction false} StepsUnique(m: Engine, c: Config, i: nat, d: Config, j: nat, e: Config)
    requires StepsTo(m, c, i, d) && StepsTo(m, c, j, e) && LastStep(m, d) && LastStep(m, e)
    ensures d == e
    decreases i
  {
    if i > 0 && j > 0 {
      StepsUnique(m, Step(m, c), i - 1, d, j - 1, e);
    }
  }

  lemma ReachUnique(m: Engine, c: Config, d: Config, e: Config)
    requires Reaches(m, c, d) && Reaches(m, c, e) && LastStep(m, d) && LastStep(m, e)
    ensures d == e
  {
    var i: nat :| StepsTo(m, c, i, d);
    var j: nat :| StepsTo(m, c, j, e);
    StepsUnique(m, c, i, d, j, e);
  }

  // ---- The text of a string ----

  function Encode(s: seq<nat>): (r: seq<Unit>)
    requires CodePoints(s)
    ensures s != [] ==> r != [] && (IsHighSurrogate(r[|r| - 1]) <==> IsHighSurrogate(s[|s| - 1]))
    ensures s == [] ==> r == []
  {
    if s == [] then [] else Encode(s[..|s| - 1]) + Utf16(s[|s| - 1])
  }

  lemma EncodePrefix(s: seq<nat>, k: nat)
    requires CodePoints(s) && k <= |s|
    ensures CodePoints(s[..k]) && |Encode(s[..k])| <= |Encode(s)|
    ensures Encode(s)[..|Encode(s[..k])|] == Encode(s[..k])
    ensures k < |s| ==> var p := |Encode(s[..k])|; p < |Encode(s)| && Encode(s)[p] == Utf16(s[k])[0]
    decreases |s|
  {
    hide Utf16;
    if k == |s| {
      assert s[..k] == s;
    } else {
      EncodePrefix(s[..|s| - 1], k);
      assert s[..|s| - 1][..k] == s[..k];
    }
  }

  lemma ReadsOne(input: seq<Unit>, p: nat, prefix: seq<Unit>, c: nat)
    requires c <= MAX_CODE_POINT && p <= |input| && input[..p] == prefix + Utf16(c)
    requires prefix != [] && IsHighSurrogate(prefix[|prefix| - 1]) ==> !IsLowSurrogate(c)
    requires p < |input| && IsLowSurrogate(input[p]) ==> !IsHighSurrogate(c)
    ensures Boundary(input, p, true)
    ensures ReadPrevious(input, p, true) == Some(Reading(c, |prefix|))
  {
    var one := Utf16(c);
    assert input[p - 1] == input[..p][p - 1] == one[|one| - 1];
    if c >= 0x1_0000 {
      assert input[p - 2] == input[..p][p - 2] == one[0];
      assert Combine(one[0], one[1]) == c;
    } else if prefix != [] {
      assert input[p - 2] == input[..p][p - 2] == prefix[|prefix| - 1];
    }
  }

  /** The character before the end of an encoded prefix is the last one of the prefix. */
  lemma ReadsLast(s: seq<nat>, k: nat)
    requires CodePoints(s) && Readable(s) && 0 < k <= |s|
    ensures CodePoints(s[..k]) && CodePoints(s[..k - 1])
    ensures Boundary(Encode(s), |Encode(s[..k])|, true)
    ensures ReadPrevious(Encode(s), |Encode(s[..k])|, true) == Some(Reading(s[k - 1], |Encode(s[..k - 1])|))
  {
    hide ReadPrevious;
    hide Boundary;
    hide Utf16;
    EncodePrefix(s, k);
    assert s[..k][..k - 1] == s[..k - 1];
    var prefix := s[..k - 1];
    assert prefix != [] ==> prefix[|prefix| - 1] == s[k - 2];
    ReadsOne(Encode(s), |Encode(s[..k])|, Encode(prefix), s[k - 1]);
  }

  lemma {:induction false} MatchesItself(env: Env, ignoreCase: bool, s: seq<nat>, k: nat)
    requires CodePoints(s) && Readable(s) && k <= |s| && env.input == Encode(s) && env.unicode
    requires forall c :: env.canonicalize(c) == c
    ensures CodePoints(s[..k]) && Boundary(env.input, |Encode(s[..k])|, true)
    ensures MatchBackward(env, ignoreCase, s[..k], |Encode(s[..k])|) == Some(0)
    decreases k
  {
    hide Readable;
    hide Utf16;
    if k > 0 {
      MatchesItself(env, ignoreCase, s, k - 1);
      ReadsLast(s, k);
      assert s[..k][..k - 1] == s[..k - 1];
    } else {
      assert s[..0] == [];
    }
  }

  // ---- Strings that no text contains ----

  /** A character that folds to a surrogate is that surrogate. */
  lemma FoldsToSurrogate(env: Env, ignoreCase: bool, character: nat, value: nat)
    requires KeepsSurrogates(env.canonicalize) && Fold(env, ignoreCase, character) == value
    requires IsHighSurrogate(value) || IsLowSurrogate(value)
    ensures character == value
  {
  }

  lemma {:induction false} NeverForward(env: Env, ignoreCase: bool, s: seq<nat>, p: nat)
    requires env.unicode && KeepsSurrogates(env.canonicalize) && Boundary(env.input, p, env.unicode) && !Readable(s)
    ensures MatchForward(env, ignoreCase, s, p) == None
    decreases |s|
  {
    hide KeepsSurrogates;
    hide Fold;
    var next := ReadCharacter(env.input, p, true);
    if next.Some? && Fold(env, ignoreCase, next.value.character) == s[0] {
      ForwardThenBackward(env.input, p, true);
      if IsHighSurrogate(s[0]) && IsLowSurrogate(s[1]) {
        FoldsToSurrogate(env, ignoreCase, next.value.character, s[0]);
        var after := ReadCharacter(env.input, next.value.next, true);
        if after.Some? && Fold(env, ignoreCase, after.value.character) == s[1] {
          FoldsToSurrogate(env, ignoreCase, after.value.character, s[1]);
        }
      } else {
        UnreadableRest(s);
        NeverForward(env, ignoreCase, s[1..], next.value.next);
      }
    }
  }

  lemma UnreadableRest(s: seq<nat>)
    requires !Readable(s) && !(IsHighSurrogate(s[0]) && IsLowSurrogate(s[1]))
    ensures !Readable(s[1..])
  {
    var i, j :| 0 <= i && j == i + 1 < |s| && IsHighSurrogate(s[i]) && IsLowSurrogate(s[j]);
    assert s[1..][i - 1] == s[i] && s[1..][j - 1] == s[j];
  }

  lemma UnreadableFront(s: seq<nat>)
    requires !Readable(s) && !(IsHighSurrogate(s[|s| - 2]) && IsLowSurrogate(s[|s| - 1]))
    ensures !Readable(s[..|s| - 1])
  {
    var i, j :| 0 <= i && j == i + 1 < |s| && IsHighSurrogate(s[i]) && IsLowSurrogate(s[j]);
    assert s[..|s| - 1][i] == s[i] && s[..|s| - 1][j] == s[j];
  }

  lemma {:induction false} NeverBackward(env: Env, ignoreCase: bool, s: seq<nat>, p: nat)
    requires env.unicode && KeepsSurrogates(env.canonicalize) && Boundary(env.input, p, env.unicode) && !Readable(s)
    ensures MatchBackward(env, ignoreCase, s, p) == None
    decreases |s|
  {
    hide KeepsSurrogates;
    hide Fold;
    var n := |s|;
    var next := ReadPrevious(env.input, p, true);
    if next.Some? && Fold(env, ignoreCase, next.value.character) == s[n - 1] {
      BackwardThenForward(env.input, p, true);
      if IsHighSurrogate(s[n - 2]) && IsLowSurrogate(s[n - 1]) {
        FoldsToSurrogate(env, ignoreCase, next.value.character, s[n - 1]);
        var before := ReadPrevious(env.input, next.value.next, true);
        assert s[..n - 1][n - 2] == s[n - 2];
        if before.Some? && Fold(env, ignoreCase, before.value.character) == s[n - 2] {
          FoldsToSurrogate(env, ignoreCase, before.value.character, s[n - 2]);
        }
      } else {
        UnreadableFront(s);
        NeverBackward(env, ignoreCase, s[..n - 1], next.value.next);
      }
    }
  }

  lemma {:induction false} NeverAny(env: Env, ignoreCase: bool, strings: seq<seq<nat>>, backward: bool, x: Cursor)
    requires env.unicode && KeepsSurrogates(env.canonicalize) && Valid(env, x)
    requires forall s :: s in strings ==> !Readable(s)
    ensures MatchStrings(env, ignoreCase, strings, backward, x) == []
    decreases |strings|
  {
    hide Readable;
    hide KeepsSurrogates;
    if strings != [] {
      NeverForward(env, ignoreCase, strings[0], x.position);
      NeverBackward(env, ignoreCase, strings[0], x.position);
      NeverAny(env, ignoreCase, strings[1..], backward, x);
    }
  }

  /** Without readable strings only the ranges of a class matter. */
  lemma OnlyRanges(env: Env, mods: Modifiers, class_: CharacterClass, backward: bool, x: Cursor)
    requires env.unicode && KeepsSurrogates(env.canonicalize) && Valid(env, x) && NoneReadable(class_)
    ensures MatchClass(env, mods, Class(class_), backward, x) == MatchOne(env, mods, Class(class_), backward, x)
  {
    hide KeepsSurrogates;
    hide MatchOne;
    assert Readable([]);
    hide Readable;
    NeverAny(env, mods.ignoreCase, LongestFirst(class_.strings), backward, x);
  }

  // ---- Forward from the last character ----

  lemma TooLong(env: Env, ignoreCase: bool, t: seq<nat>, q: nat)
    requires |t| >= 2 && Boundary(env.input, q, env.unicode)
    requires var next := ReadCharacter(env.input, q, env.unicode); next.Some? && next.value.next == |env.input|
    ensures MatchForward(env, ignoreCase, t, q) == None
  {
    var next := ReadCharacter(env.input, q, env.unicode).value.next;
    ForwardThenBackward(env.input, q, env.unicode);
    assert MatchForward(env, ignoreCase, t[1..], next) == None;
  }

  lemma {:induction false} AllTooLong(env: Env, ignoreCase: bool, strings: seq<seq<nat>>, y: Cursor)
    requires Valid(env, y) && forall t :: t in strings ==> |t| >= 2
    requires var next := ReadCharacter(env.input, y.position, env.unicode); next.Some? && next.value.next == |env.input|
    ensures MatchStrings(env, ignoreCase, strings, false, y) == []
    decreases |strings|
  {
    if strings != [] {
      TooLong(env, ignoreCase, strings[0], y.position);
      AllTooLong(env, ignoreCase, strings[1..], y);
    }
  }

  /** With only strings of two or more characters, the class at the last character can only match that character. */
  lemma LastCharacterOnly(env: Env, mods: Modifiers, class_: CharacterClass, y: Cursor)
    requires Valid(env, y) && NoShortStrings(class_) && [] !in class_.strings
    requires var next := ReadCharacter(env.input, y.position, env.unicode); next.Some? && next.value.next == |env.input|
    ensures var zs := MatchClass(env, mods, Class(class_), false, y);
            zs != [] ==> zs[0].position == |env.input| && zs[0].captures == y.captures
  {
    var strings := LongestFirst(class_.strings);
    forall t | t in strings
      ensures |t| >= 2
    {
      assert t in class_.strings && t != [];
    }
    AllTooLong(env, mods.ignoreCase, strings, y);
  }

  // ---- Where the code arrives ----

  lemma ClassEngineShape(env: Env, mods: Modifiers, class_: CharacterClass)
    ensures var m := ClassEngine(env, mods, class_);
            var parts := ClassParts(class_, mods.ignoreCase);
            var end := 1 + ChainLength(parts);
            && |m.program| == end + 2 && |CodeClass(mods, class_, true, 0)| == end + 1
            && m.program[0] == Prev && m.program[end] == Prev && m.program[end + 1] == Match
            && Placed(m.program, 1, Chain(parts, 1, end))
  {
    hide ClassParts;
    hide Chain;
    var m := ClassEngine(env, mods, class_);
    var parts := ClassParts(class_, mods.ignoreCase);
    var end := 1 + ChainLength(parts);
    ChainHasLength(parts, 1, end);
    var chain := Chain(parts, 1, end);
    assert m.program == [Prev] + chain + [Prev, Match];
    assert m.program[1..1 + |chain|] == chain;
  }

  /** Failing and reaching the final match are both last steps. */
  lemma EndsAreLast(m: Engine, exit: nat, position: nat, memory: Memory, upper: seq<Frame>)
    requires exit < |m.program| && m.program[exit] == Match
    ensures LastStep(m, Failing([])) && LastStep(m, Running(exit, position, memory, upper))
  {
    hide FinishFrom;
    assert Step(m, Running(exit, position, memory, upper)) == Finish(memory);
  }

  /** If the reference finds something, the code must arrive there. */
  lemma RightArrives(mods: Modifiers, class_: CharacterClass, env: Env, x: Cursor, e: Config)
    requires Valid(env, x) && x.captures == [] && MatchClass(env, mods, Class(class_), true, x) != []
    requires RightOn(mods, class_, env, x, Memory([], []))
    requires LastStep(ClassEngine(env, mods, class_), e)
    requires Reaches(ClassEngine(env, mods, class_), Running(0, x.position, Memory([], []), []), e)
    ensures e.Running? && e.position == MatchClass(env, mods, Class(class_), true, x)[0].position
  {
    ClassEngineShape(env, mods, class_);
    var m, memory := ClassEngine(env, mods, class_), Memory([], []);
    var ys, exit := MatchClass(env, mods, Class(class_), true, x), |CodeClass(mods, class_, true, 0)|;
    var start := Running(0, x.position, memory, []);
    assert Ready(x, memory, 0, 0);
    var memory', upper := FirstResult(m, start, exit, ys, [], Footing(memory, 0, 0, 0));
    EndsAreLast(m, exit, ys[0].position, memory', upper);
    ReachUnique(m, start, Running(exit, ys[0].position, memory', upper), e);
  }

  const NOWHERE := Env([], true, c => c)

  /** A class with the empty string fails before the first character, where the empty string should match. */
  lemma EmptyStringWrong(mods: Modifiers, class_: CharacterClass)
    requires [] in class_.strings
    ensures !RightBackward(mods, class_)
  {
    hide Reaches;
    hide Yields;
    hide CodeClass;
    hide LongestFirst;
    hide Chain;
    hide ClassParts;
    var env, x, memory := NOWHERE, Cursor(0, []), Memory([], []);
    var m, start := ClassEngine(env, mods, class_), Running(0, 0, memory, []);
    ClassEngineShape(env, mods, class_);
    var ys := MatchClass(env, mods, Class(class_), true, x);
    assert ys[|ys| - 1] == x;
    assert Step(m, start) == Failing([]);
    ReachesOne(m, start);
    EndsAreLast(m, |CodeClass(mods, class_, true, 0)|, 0, memory, []);
    if RightBackward(mods, class_) {
      assert RightOn(mods, class_, env, x, memory);
      RightArrives(mods, class_, env, x, Failing([]));
    }
  }

  /** The first string in the order of the code that a text may contain. */
  lemma {:induction false} FirstReadable(strings: seq<seq<nat>>) returns (k: nat)
    requires exists s :: s in strings && Readable(s)
    ensures k < |strings| && Readable(strings[k]) && forall i :: 0 <= i < k ==> !Readable(strings[i])
    decreases |strings|
  {
    hide Readable;
    if Readable(strings[0]) {
      k := 0;
    } else {
      var rest := FirstReadable(strings[1..]);
      k := rest + 1;
      assert forall i :: 1 <= i < k ==> strings[i] == strings[1..][i - 1];
    }
  }

  /** A class with a longer readable string misses that string when it ends at the position. */
  lemma LongStringWrong(mods: Modifiers, class_: CharacterClass)
    requires ValidClass(class_) && NoShortStrings(class_) && !NoneReadable(class_) && [] !in class_.strings
    ensures !RightBackward(mods, class_)
  {
    hide LongestFirst;
    hide MatchClass;
    hide Step;
    hide Reaches;
    hide Yields;
    hide CodeClass;
    hide Readable;
    hide Encode;
    hide Boundary;
    hide ReadPrevious;
    var strings := LongestFirst(class_.strings);
    assert exists s :: s in strings && Readable(s);
    var k := FirstReadable(strings);
    var s := strings[k];
    assert s in strings && |s| >= 2;
    forall i | 0 <= i < |s|
      ensures s[i] <= MAX_CODE_POINT
    {
      assert s in class_.strings && s[i] in s;
    }
    var env, x := Env(Encode(s), true, c => c), Cursor(|Encode(s)|, []);
    assert s[..|s|] == s;
    MatchesItself(env, mods.ignoreCase, s, |s|);
    FirstResultAtStart(env, mods, class_, k, x);
    ReadsLast(s, |s|);
    var q := |Encode(s[..|s| - 1])|;
    assert s[..|s| - 1] != [];
    var e := ArrivesLate(env, mods, class_, x, q);
    if RightBackward(mods, class_) {
      assert RightOn(mods, class_, env, x, Memory([], []));
      RightArrives(mods, class_, env, x, e);
    }
  }

  lemma {:induction false} SkipsUnreadable(env: Env, ignoreCase: bool, strings: seq<seq<nat>>, k: nat, x: Cursor)
    requires env.unicode && KeepsSurrogates(env.canonicalize) && Valid(env, x) && k < |strings|
    requires forall i :: 0 <= i < k ==> !Readable(strings[i])
    requires MatchBackward(env, ignoreCase, strings[k], x.position) == Some(0)
    ensures var ys := MatchStrings(env, ignoreCase, strings, true, x); ys != [] && ys[0].position == 0
    decreases k
  {
    hide Readable;
    hide KeepsSurrogates;
    hide MatchBackward;
    if k > 0 {
      NeverBackward(env, ignoreCase, strings[0], x.position);
      SkipsUnreadable(env, ignoreCase, strings[1..], k - 1, x);
    }
  }

  lemma FirstResultAtStart(env: Env, mods: Modifiers, class_: CharacterClass, k: nat, x: Cursor)
    requires env.unicode && KeepsSurrogates(env.canonicalize) && Valid(env, x)
    requires var strings := LongestFirst(class_.strings);
             && k < |strings| && (forall i :: 0 <= i < k ==> !Readable(strings[i]))
             && MatchBackward(env, mods.ignoreCase, strings[k], x.position) == Some(0)
    ensures var ys := MatchClass(env, mods, Class(class_), true, x); ys != [] && ys[0].position == 0
  {
    hide LongestFirst;
    hide Readable;
    hide KeepsSurrogates;
    hide MatchBackward;
    hide MatchStrings;
    SkipsUnreadable(env, mods.ignoreCase, LongestFirst(class_.strings), k, x);
  }

  /** The chain of a class, entered at the last character, yields that character or nothing. */
  lemma InsideYields(m: Engine, mods: Modifiers, class_: CharacterClass, q: nat)
    requires ValidClass(class_) && NoShortStrings(class_) && [] !in class_.strings
    requires m == ClassEngine(m.env, mods, class_) && Boundary(m.env.input, q, m.env.unicode)
    requires var next := ReadCharacter(m.env.input, q, m.env.unicode);
             next.Some? && next.value.next == |m.env.input|
    ensures var zs := MatchClass(m.env, mods, Class(class_), false, Cursor(q, []));
            && (zs != [] ==> zs[0].position == |m.env.input|)
            && Yields(m, Running(1, q, Memory([], []), []), 1 + ChainLength(ClassParts(class_, mods.ignoreCase)),
                      zs, [], Footing(Memory([], []), 0, 0, 0))
  {
    hide Yields;
    hide ReadCharacter;
    hide Boundary;
    hide Chain;
    hide CodeClass;
    hide ClassParts;
    hide MatchClass;
    hide PartResults;
    hide Placed;
    hide AllConsumers;
    var parts, y := ClassParts(class_, mods.ignoreCase), Cursor(q, []);
    var end := 1 + ChainLength(parts);
    ClassEngineShape(m.env, mods, class_);
    LastCharacterOnly(m.env, mods, class_, y);
    ClassPartsMatch(m.env, mods, Class(class_), y);
    ClassPartsConsume(class_, mods.ignoreCase);
    ChainYields(m, 1, parts, end, y, Memory([], []), [], 0, 0, 0);
  }

  /** From the end of the input the code arrives, if at all, at the start of the last character. */
  lemma ArrivesLate(env: Env, mods: Modifiers, class_: CharacterClass, x: Cursor, q: nat) returns (e: Config)
    requires ValidClass(class_) && NoShortStrings(class_) && [] !in class_.strings
    requires Valid(env, x) && x.captures == [] && x.position == |env.input|
    requires var before := ReadPrevious(env.input, x.position, env.unicode); before.Some? && before.value.next == q
    ensures LastStep(ClassEngine(env, mods, class_), e)
    ensures Reaches(ClassEngine(env, mods, class_), Running(0, x.position, Memory([], []), []), e)
    ensures e.Running? ==> e.position == q
  {
    hide Yields;
    hide Chain;
    hide ClassParts;
    hide MatchClass;
    var m, memory := ClassEngine(env, mods, class_), Memory([], []);
    var end := 1 + ChainLength(ClassParts(class_, mods.ignoreCase));
    ClassEngineShape(env, mods, class_);
    var start, inside := Running(0, x.position, memory, []), Running(1, q, memory, []);
    ProbeRuns(m, 0, x.position, memory, []);
    assert Reaches(m, start, inside);
    BackwardThenForward(env.input, x.position, env.unicode);
    InsideYields(m, mods, class_, q);
    e := LeavesClass(m, start, inside, end, MatchClass(env, mods, Class(class_), false, Cursor(q, [])), x.position, q);
    if e.Running? {
      EndsAreLast(m, end + 1, e.position, e.memory, e.controls);
    } else {
      EndsAreLast(m, end + 1, q, memory, []);
    }
  }

  lemma LeavesClass(m: Engine, start: Config, inside: Config, end: nat, zs: seq<Cursor>, position: nat, q: nat)
    returns (e: Config)
    requires Reaches(m, start, inside) && end < |m.program| && m.program[end] == Prev
    requires Yields(m, inside, end, zs, [], Footing(Memory([], []), 0, 0, 0))
    requires zs != [] ==> zs[0].position == position
    requires var before := ReadPrevious(m.env.input, position, m.env.unicode); before.Some? && before.value.next == q
    ensures Reaches(m, start, e)
    ensures e == Failing([]) || (e.Running? && e.pc == end + 1 && e.position == q)
  {
    if zs == [] {
      e := Failing([]);
      assert Reaches(m, inside, e);
      ReachesTransitive(m, start, inside, e);
    } else {
      var memory, upper := FirstResult(m, inside, end, zs, [], Footing(Memory([], []), 0, 0, 0));
      var here := Running(end, position, memory, upper);
      e := Running(end + 1, q, memory, upper);
      ProbeRuns(m, end, position, memory, upper);
      ReachesTransitive(m, start, inside, here);
      ReachesTransitive(m, start, here, e);
    }
  }

  /** From the character before, the chain yields that character, and the last `Prev` steps back over it. */
  lemma ComesBack(m: Engine, mods: Modifiers, class_: CharacterClass, x: Cursor, memory: Memory, q: nat)
    requires m == ClassEngine(m.env, mods, class_) && ValidClass(class_) && NoneReadable(class_)
    requires m.env.unicode && KeepsSurrogates(m.env.canonicalize) && Valid(m.env, x) && Ready(x, memory, 0, 0)
    requires var before := ReadPrevious(m.env.input, x.position, true); before.Some? && before.value.next == q
    requires Boundary(m.env.input, q, true)
    ensures Yields(m, Running(1, q, memory, []), |CodeClass(mods, class_, true, 0)|,
                   MatchOne(m.env, mods, Class(class_), true, x), [], Footing(memory, 0, 0, 0))
  {
    hide Yields;
    hide Chain;
    hide CodeClass;
    hide ClassParts;
    hide MatchClass;
    hide PartResults;
    hide Placed;
    hide AllConsumers;
    hide KeepsSurrogates;
    hide NoneReadable;
    hide Turns;
    var parts, y, footing := ClassParts(class_, mods.ignoreCase), x.(position := q), Footing(memory, 0, 0, 0);
    var end := 1 + ChainLength(parts);
    BackwardThenForward(m.env.input, x.position, true);
    ClassEngineShape(m.env, mods, class_);
    OnlyRanges(m.env, mods, class_, false, y);
    ClassPartsMatch(m.env, mods, Class(class_), y);
    ClassPartsConsume(class_, mods.ignoreCase);
    ChainYields(m, 1, parts, end, y, memory, [], 0, 0, 0);
    var zs, ys := MatchOne(m.env, mods, Class(class_), false, y), MatchOne(m.env, mods, Class(class_), true, x);
    assert |zs| == |ys| && (zs != [] ==> zs[0] == x && ys[0] == y);
    StepsBack(m, end, x, q, footing);
    YieldsMap(m, Running(1, q, memory, []), end, zs, [], footing, end + 1, ys, footing);
  }

  lemma StepsBack(m: Engine, end: nat, x: Cursor, q: nat, footing: Footing)
    requires end < |m.program| && m.program[end] == Prev
    requires var before := ReadPrevious(m.env.input, x.position, m.env.unicode); before.Some? && before.value.next == q
    ensures Turns(m, end, x, footing, end + 1, x.(position := q), footing)
  {
    hide Reaches;
    hide ReadPrevious;
    var y, exit := x.(position := q), end + 1;
    forall memory, upper | Fits(footing, x, memory)
      ensures TurnsAt(m, end, x, memory, upper, exit, y, footing)
    {
      ProbeRuns(m, end, x.position, memory, upper);
      assert Fits(footing, y, memory);
    }
  }

  lemma UnreadableRight(mods: Modifiers, class_: CharacterClass, env: Env, x: Cursor, memory: Memory)
    requires ValidClass(class_) && NoneReadable(class_) && env.unicode && KeepsSurrogates(env.canonicalize)
    ensures RightOn(mods, class_, env, x, memory)
  {
    hide Yields;
    hide Chain;
    hide CodeClass;
    hide ClassParts;
    hide MatchClass;
    hide Placed;
    hide Reaches;
    hide KeepsSurrogates;
    hide NoneReadable;
    hide Ready;
    if Valid(env, x) && Ready(x, memory, 0, 0) {
      var m, start := ClassEngine(env, mods, class_), Running(0, x.position, memory, []);
      var exit := |CodeClass(mods, class_, true, 0)|;
      ClassEngineShape(env, mods, class_);
      OnlyRanges(env, mods, class_, true, x);
      ProbeRuns(m, 0, x.position, memory, []);
      BackwardThenForward(env.input, x.position, true);
      var before := ReadPrevious(env.input, x.position, true);
      if before.Some? {
        ComesBack(m, mods, class_, x, memory, before.value.next);
        YieldsAfter(m, start, Running(1, before.value.next, memory, []), exit,
                    MatchOne(env, mods, Class(class_), true, x), [], Footing(memory, 0, 0, 0));
      } else {
        YieldsNone(m, start, exit, [], Footing(memory, 0, 0, 0));
      }
    }
  }

  /**
   Backward class code is right on every input exactly when no text can contain a
   string of the class: in particular when there is none, and never when there is one
   without surrogates.
   */
  lemma RightBackwardIffNoneReadable(mods: Modifiers, class_: CharacterClass)
    requires ValidClass(class_) && NoShortStrings(class_)
    ensures RightBackward(mods, class_) <==> NoneReadable(class_)
  {
    if NoneReadable(class_) {
      forall env: Env, x, memory | env.unicode && KeepsSurrogates(env.canonicalize)
        ensures RightOn(mods, class_, env, x, memory)
      {
        UnreadableRight(mods, class_, env, x, memory);
      }
    } else if [] in class_.strings {
      EmptyStringWrong(mods, class_);
    } else {
      LongStringWrong(mods, class_);
    }
  }
}
