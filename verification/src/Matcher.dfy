/**
 The reference matcher: pattern semantics as in section 22.2.2 of ECMA-262,
 written as the list of all ways to match a node, in the order a backtracking
 matcher tries them. A continuation sees the elements of the list one by one;
 the first element is the result of matching.
 */
module Matcher {
  import opened Basics
  import opened Characters
  import opened CharacterRanges
  import opened Pattern

  /** What matching depends on besides the pattern. `canonicalize` is the Unicode case-folding table. */
  datatype Env = Env(input: seq<Unit>, unicode: bool, canonicalize: nat -> nat)

  /** A MatchState: the end index and the captures. */
  datatype Cursor = Cursor(position: nat, captures: seq<Option<(nat, nat)>>)

  predicate ValidCapture(env: Env, capture: Option<(nat, nat)>) {
    capture.Some? ==>
      && capture.value.0 <= capture.value.1
      && Boundary(env.input, capture.value.0, env.unicode)
      && Boundary(env.input, capture.value.1, env.unicode)
  }

  predicate Valid(env: Env, x: Cursor) {
    && Boundary(env.input, x.position, env.unicode)
    && forall i :: 0 <= i < |x.captures| ==> ValidCapture(env, x.captures[i])
  }

  /** `y` may result from matching at `x` in the given direction. */
  predicate Moves(env: Env, backward: bool, x: Cursor, y: Cursor) {
    && Valid(env, y)
    && |y.captures| == |x.captures|
    && (if backward then y.position <= x.position else x.position <= y.position)
  }

  predicate AllMove(env: Env, backward: bool, x: Cursor, ys: seq<Cursor>) {
    forall i :: 0 <= i < |ys| ==> Moves(env, backward, x, ys[i])
  }

  /** How far a match may still move. */
  function Distance(env: Env, backward: bool, x: Cursor): nat
    requires Valid(env, x)
  {
    if backward then x.position else |env.input| - x.position
  }

  function Fold(env: Env, ignoreCase: bool, character: nat): nat {
    if ignoreCase then env.canonicalize(character) else character
  }

  function FoldAll(env: Env, ignoreCase: bool, characters: seq<nat>): seq<nat> {
    if characters == [] then []
    else [Fold(env, ignoreCase, characters[0])] + FoldAll(env, ignoreCase, characters[1..])
  }

  // ---- Single characters ----

  /** The character next to `position` in the direction of matching. */
  function Next(env: Env, backward: bool, position: nat): Option<Reading> {
    if backward then ReadPrevious(env.input, position, env.unicode)
    else ReadCharacter(env.input, position, env.unicode)
  }

  predicate Accepts(env: Env, mods: Modifiers, atom: Atom, character: nat) {
    match atom
    case Literal(value) => Fold(env, mods.ignoreCase, character) == Fold(env, mods.ignoreCase, value)
    case Dot => mods.dotAll || !IsLineTerminator(character)
    case Space(inverted) => IsSpace(character) != inverted
    case Class(class_) => Member(class_.ranges, Fold(env, mods.ignoreCase, character)) != class_.inverted
    case _ => false
  }

  function MatchOne(env: Env, mods: Modifiers, atom: Atom, backward: bool, x: Cursor): (r: seq<Cursor>)
    requires Valid(env, x)
    ensures AllMove(env, backward, x, r)
    ensures |r| <= 1 && (r != [] ==> r[0].position != x.position && r[0].captures == x.captures)
  {
    ForwardThenBackward(env.input, x.position, env.unicode);
    BackwardThenForward(env.input, x.position, env.unicode);
    var next := Next(env, backward, x.position);
    if next.Some? && Accepts(env, mods, atom, next.value.character) then [x.(position := next.value.next)]
    else []
  }

  // ---- Assertions ----

  predicate Holds(env: Env, mods: Modifiers, atom: Atom, position: nat) {
    var before := ReadPrevious(env.input, position, env.unicode);
    var after := ReadCharacter(env.input, position, env.unicode);
    match atom
    case LineStart => position == 0 || (mods.multiline && before.Some? && IsLineTerminator(before.value.character))
    case LineEnd =>
      position == |env.input| || (mods.multiline && after.Some? && IsLineTerminator(after.value.character))
    case WordBoundary(inverted) =>
      var extended := mods.ignoreCase && env.unicode;
      var a := before.Some? && IsWord(before.value.character, extended);
      var b := after.Some? && IsWord(after.value.character, extended);
      (a != b) != inverted
    case _ => false
  }

  // ---- Fixed strings of (already folded) characters ----

  function MatchForward(env: Env, ignoreCase: bool, characters: seq<nat>, position: nat): (r: Option<nat>)
    requires Boundary(env.input, position, env.unicode)
    ensures r.Some? ==> Boundary(env.input, r.value, env.unicode) && position <= r.value
    ensures r.Some? && characters != [] ==> position < r.value
  {
    if characters == [] then Some(position)
    else
      ForwardThenBackward(env.input, position, env.unicode);
      var next := ReadCharacter(env.input, position, env.unicode);
      if next.Some? && Fold(env, ignoreCase, next.value.character) == characters[0] then
        MatchForward(env, ignoreCase, characters[1..], next.value.next)
      else None
  }

  function MatchBackward(env: Env, ignoreCase: bool, characters: seq<nat>, position: nat): (r: Option<nat>)
    requires Boundary(env.input, position, env.unicode)
    ensures r.Some? ==> Boundary(env.input, r.value, env.unicode) && r.value <= position
    ensures r.Some? && characters != [] ==> r.value < position
  {
    if characters == [] then Some(position)
    else
      BackwardThenForward(env.input, position, env.unicode);
      var next := ReadPrevious(env.input, position, env.unicode);
      if next.Some? && Fold(env, ignoreCase, next.value.character) == characters[|characters| - 1] then
        MatchBackward(env, ignoreCase, characters[..|characters| - 1], next.value.next)
      else None
  }

  function MatchString(env: Env, ignoreCase: bool, characters: seq<nat>, backward: bool, x: Cursor): (r: seq<Cursor>)
    requires Valid(env, x)
    ensures AllMove(env, backward, x, r)
    ensures |r| <= 1 && (r != [] ==> r[0].captures == x.captures)
    ensures r != [] && characters != [] ==> r[0].position != x.position
  {
    var end := if backward then MatchBackward(env, ignoreCase, characters, x.position)
               else MatchForward(env, ignoreCase, characters, x.position);
    if end.Some? then [x.(position := end.value)] else []
  }

  // ---- Classes: longest strings first, then single characters, then the empty string ----

  function MatchStrings(env: Env, ignoreCase: bool, strings: seq<seq<nat>>, backward: bool, x: Cursor): (r: seq<Cursor>)
    requires Valid(env, x)
    ensures AllMove(env, backward, x, r)
  {
    if strings == [] then []
    else
      MatchString(env, ignoreCase, strings[0], backward, x) + MatchStrings(env, ignoreCase, strings[1..], backward, x)
  }

  function MatchClass(env: Env, mods: Modifiers, atom: Atom, backward: bool, x: Cursor): (r: seq<Cursor>)
    requires atom.Class?
    requires Valid(env, x)
    ensures AllMove(env, backward, x, r)
  {
    MatchStrings(env, mods.ignoreCase, LongestFirst(atom.class_.strings), backward, x)
    + (MatchOne(env, mods, atom, backward, x)
       + (if [] in atom.class_.strings then [x] else []))
  }

  // ---- Back references ----

  /** The characters of the captured text. */
  function Text(env: Env, start: nat, end: nat): seq<nat>
    requires end <= |env.input|
    decreases end - start
  {
    if start >= end then []
    else
      var next := ReadCharacter(env.input[..end], start, env.unicode).value;
      [next.character] + Text(env, next.next, end)
  }

  /** The first of the named groups that took part in the match. */
  function Participating(groups: seq<nat>, x: Cursor): (r: Option<(nat, nat)>)
    ensures r.Some? ==> exists g :: 0 <= g < |x.captures| && x.captures[g] == r
  {
    if groups == [] then None
    else if groups[0] < |x.captures| && x.captures[groups[0]].Some? then x.captures[groups[0]]
    else Participating(groups[1..], x)
  }

  function MatchReference(env: Env, mods: Modifiers, groups: seq<nat>, backward: bool, x: Cursor): (r: seq<Cursor>)
    requires Valid(env, x)
    ensures AllMove(env, backward, x, r)
    ensures forall i :: 0 <= i < |r| ==> r[i].captures == x.captures
  {
    var capture := Participating(groups, x);
    if capture.None? then [x]
    else
      var text := FoldAll(env, mods.ignoreCase, Text(env, capture.value.0, capture.value.1));
      MatchString(env, mods.ignoreCase, text, backward, x)
  }

  // ---- Captures ----

  function Groups(atom: Atom): set<nat>
    decreases atom
  {
    match atom
    case Group(capture, _, expression) =>
      (if capture.Some? then {capture.value} else {}) + AlternativesGroupSet(expression.alternatives)
    case LookAround(_, _, expression) => AlternativesGroupSet(expression.alternatives)
    case _ => {}
  }

  function AlternativesGroupSet(alternatives: seq<Sequence>): set<nat>
    decreases alternatives
  {
    if alternatives == [] then {}
    else TermsGroupSet(alternatives[0].terms) + AlternativesGroupSet(alternatives[1..])
  }

  function TermsGroupSet(terms: seq<Term>): set<nat>
    decreases terms
  {
    if terms == [] then {} else TermGroupSet(terms[0]) + TermsGroupSet(terms[1..])
  }

  function TermGroupSet(term: Term): set<nat>
    decreases term
  {
    Groups(term.atom)
  }

  /** Forget the captures of every group in `groups`. */
  function Forget(x: Cursor, groups: set<nat>): (r: Cursor)
    ensures r.position == x.position && |r.captures| == |x.captures|
    ensures forall i :: 0 <= i < |x.captures| ==> r.captures[i] == if i in groups then None else x.captures[i]
    ensures forall env :: Valid(env, x) ==> Valid(env, r)
  {
    Cursor(x.position,
           seq(|x.captures|, i requires 0 <= i < |x.captures| => if i in groups then None else x.captures[i]))
  }

  /** Record that `group` matched between the two cursors' positions. */
  function Capture(group: nat, backward: bool, x: Cursor, y: Cursor): Cursor {
    if group >= |y.captures| then y
    else
      var range := if backward then (y.position, x.position) else (x.position, y.position);
      y.(captures := y.captures[group := Some(range)])
  }

  function CaptureAll(group: nat, backward: bool, x: Cursor, ys: seq<Cursor>): (r: seq<Cursor>)
    ensures |r| == |ys|
    ensures forall i :: 0 <= i < |ys| ==> r[i] == Capture(group, backward, x, ys[i])
  {
    if ys == [] then [] else [Capture(group, backward, x, ys[0])] + CaptureAll(group, backward, x, ys[1..])
  }

  lemma CaptureMoves(env: Env, group: nat, backward: bool, x: Cursor, ys: seq<Cursor>)
    requires Valid(env, x) && AllMove(env, backward, x, ys)
    ensures AllMove(env, backward, x, CaptureAll(group, backward, x, ys))
  {
  }

  // ---- Composite nodes ----

  /** Every way to match an atom at `x`, in order of preference. */
  function MatchAtom(env: Env, mods: Modifiers, atom: Atom, backward: bool, x: Cursor): (r: seq<Cursor>)
    requires Valid(env, x)
    ensures AllMove(env, backward, x, r)
    decreases atom, 0, 0, 0, 0, 0
  {
    match atom
    case Literal(_) => MatchOne(env, mods, atom, backward, x)
    case Dot => MatchOne(env, mods, atom, backward, x)
    case Space(_) => MatchOne(env, mods, atom, backward, x)
    case Class(_) => MatchClass(env, mods, atom, backward, x)
    case LineStart => if Holds(env, mods, atom, x.position) then [x] else []
    case LineEnd => if Holds(env, mods, atom, x.position) then [x] else []
    case WordBoundary(_) => if Holds(env, mods, atom, x.position) then [x] else []
    case BackReference(groups) => MatchReference(env, mods, groups, backward, x)
    case LookAround(negative, inner, expression) =>
      var ys := MatchAlternatives(env, mods, expression.alternatives, inner, x);
      if negative then (if ys == [] then [x] else [])
      else if ys == [] then []
      else [ys[0].(position := x.position)]
    case Group(capture, modifiers, expression) =>
      var inner := if modifiers.Some? then modifiers.value else mods;
      var ys := MatchAlternatives(env, inner, expression.alternatives, backward, x);
      if capture.None? then ys
      else
        CaptureMoves(env, capture.value, backward, x, ys);
        CaptureAll(capture.value, backward, x, ys)
  }

  function MatchAlternatives(env: Env, mods: Modifiers, alternatives: seq<Sequence>, backward: bool, x: Cursor)
    : (r: seq<Cursor>)
    requires Valid(env, x)
    ensures AllMove(env, backward, x, r)
    decreases alternatives, 0, 0, 0, 0, 0
  {
    if alternatives == [] then [x]
    else if |alternatives| == 1 then MatchTerms(env, mods, alternatives[0].terms, backward, x)
    else
      MatchTerms(env, mods, alternatives[0].terms, backward, x)
      + MatchAlternatives(env, mods, alternatives[1..], backward, x)
  }

  function MatchTerms(env: Env, mods: Modifiers, terms: seq<Term>, backward: bool, x: Cursor): (r: seq<Cursor>)
    requires Valid(env, x)
    ensures AllMove(env, backward, x, r)
    decreases terms, 1, 0, 0, 0, 0
  {
    if terms == [] then [x]
    else
      var ys := MatchTerm(env, mods, First(terms, backward), backward, x);
      MatchTermsAll(env, mods, Rest(terms, backward), backward, x, ys)
  }

  /** Match `terms` after each of `ys`, keeping the order of preference. */
  function MatchTermsAll(env: Env, mods: Modifiers, terms: seq<Term>, backward: bool, x: Cursor, ys: seq<Cursor>)
    : (r: seq<Cursor>)
    requires Valid(env, x) && AllMove(env, backward, x, ys)
    ensures AllMove(env, backward, x, r)
    decreases terms, 2, 0, 0, 0, |ys|
  {
    if ys == [] then []
    else
      MatchTerms(env, mods, terms, backward, ys[0])
      + MatchTermsAll(env, mods, terms, backward, x, ys[1..])
  }

  function MatchTerm(env: Env, mods: Modifiers, term: Term, backward: bool, x: Cursor): (r: seq<Cursor>)
    requires Valid(env, x)
    ensures AllMove(env, backward, x, r)
    decreases term, 0, 0, 0, 0, 0
  {
    match term.quantifier
    case None => MatchAtom(env, mods, term.atom, backward, x)
    case Some(q) => Repeat(env, mods, term.atom, q.minimum, q.maximum, q.greedy, backward, x)
  }

  function Less(maximum: Option<nat>): Option<nat>
    requires maximum != Some(0)
  {
    if maximum.None? then None else Some(maximum.value - 1)
  }

  /** RepeatMatcher, section 22.2.2.3.1 of ECMA-262. */
  function Repeat(env: Env, mods: Modifiers, atom: Atom, minimum: nat, maximum: Option<nat>, greedy: bool,
                  backward: bool, x: Cursor): (r: seq<Cursor>)
    requires Valid(env, x)
    ensures AllMove(env, backward, x, r)
    decreases atom, 1, minimum, Distance(env, backward, x), 1, 0
  {
    if maximum == Some(0) then [x]
    else
      var ys := MatchAtom(env, mods, atom, backward, Forget(x, Groups(atom)));
      var again := RepeatAll(env, mods, atom, minimum, maximum, greedy, backward, x, ys);
      if minimum > 0 then again
      else if greedy then again + [x]
      else [x] + again
  }

  /** One iteration from `x` led to `ys`; an optional iteration must not have matched the empty string. */
  function RepeatAll(env: Env, mods: Modifiers, atom: Atom, minimum: nat, maximum: Option<nat>, greedy: bool,
                     backward: bool, x: Cursor, ys: seq<Cursor>): (r: seq<Cursor>)
    requires maximum != Some(0)
    requires Valid(env, x) && AllMove(env, backward, x, ys)
    ensures AllMove(env, backward, x, r)
    decreases atom, 1, minimum, Distance(env, backward, x), 0, |ys|
  {
    if ys == [] then []
    else
      var rest := RepeatAll(env, mods, atom, minimum, maximum, greedy, backward, x, ys[1..]);
      if minimum == 0 && ys[0].position == x.position then rest
      else
        Repeat(env, mods, atom, if minimum > 0 then minimum - 1 else 0, Less(maximum), greedy, backward, ys[0])
        + rest
  }
}
