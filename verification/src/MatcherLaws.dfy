/** Laws of the reference matcher. */
module MatcherLaws {
  import opened Basics
  import opened Pattern
  import opened Matcher

  // ---- A node changes no captures but its own ----

  predicate Keeps(x: Cursor, y: Cursor, groups: set<nat>) {
    && |y.captures| == |x.captures|
    && forall g :: 0 <= g < |x.captures| && g !in groups ==> y.captures[g] == x.captures[g]
  }

  predicate AllKeep(x: Cursor, ys: seq<Cursor>, groups: set<nat>) {
    forall i :: 0 <= i < |ys| ==> Keeps(x, ys[i], groups)
  }

  lemma KeepAppend(x: Cursor, ys: seq<Cursor>, zs: seq<Cursor>, groups: set<nat>)
    requires AllKeep(x, ys, groups) && AllKeep(x, zs, groups)
    ensures AllKeep(x, ys + zs, groups)
  {
  }

  lemma KeepThen(x: Cursor, y: Cursor, zs: seq<Cursor>, inner: set<nat>, outer: set<nat>)
    requires Keeps(x, y, outer) && AllKeep(y, zs, inner) && inner <= outer
    ensures AllKeep(x, zs, outer)
  {
  }

  lemma {:induction false} StringsKeep(env: Env, ignoreCase: bool, strings: seq<seq<nat>>, backward: bool, x: Cursor)
    requires Valid(env, x)
    ensures AllKeep(x, MatchStrings(env, ignoreCase, strings, backward, x), {})
    decreases strings
  {
    if strings != [] {
      StringsKeep(env, ignoreCase, strings[1..], backward, x);
    }
  }

  lemma ClassKeeps(env: Env, mods: Modifiers, atom: Atom, backward: bool, x: Cursor)
    requires Valid(env, x) && atom.Class?
    ensures AllKeep(x, MatchClass(env, mods, atom, backward, x), {})
  {
    var strings := LongestFirst(atom.class_.strings);
    StringsKeep(env, mods.ignoreCase, strings, backward, x);
    var empty := if [] in atom.class_.strings then [x] else [];
    assert AllKeep(x, MatchOne(env, mods, atom, backward, x), {});
    KeepAppend(x, MatchOne(env, mods, atom, backward, x), empty, {});
    KeepAppend(x, MatchStrings(env, mods.ignoreCase, strings, backward, x),
               MatchOne(env, mods, atom, backward, x) + empty, {});
  }

  lemma CaptureKeeps(group: nat, backward: bool, x: Cursor, ys: seq<Cursor>, groups: set<nat>)
    requires AllKeep(x, ys, groups)
    ensures AllKeep(x, CaptureAll(group, backward, x, ys), {group} + groups)
  {
  }

  lemma {:induction false} AtomKeeps(env: Env, mods: Modifiers, atom: Atom, backward: bool, x: Cursor)
    requires Valid(env, x)
    ensures AllKeep(x, MatchAtom(env, mods, atom, backward, x), Groups(atom))
    decreases atom, 0, 0, 0, 0, 0
  {
    hide MatchAlternatives;
    hide AlternativesGroupSet;
    hide MatchClass;
    hide MatchReference;
    match atom
    case Class(class_) =>
      ClassKeeps(env, mods, atom, backward, x);
    case LookAround(negative, inner, expression) =>
      AlternativesKeep(env, mods, expression.alternatives, inner, x);
    case Group(capture, modifiers, expression) =>
      var inner := if modifiers.Some? then modifiers.value else mods;
      AlternativesKeep(env, inner, expression.alternatives, backward, x);
      if capture.Some? {
        CaptureKeeps(capture.value, backward, x, MatchAlternatives(env, inner, expression.alternatives, backward, x),
                     AlternativesGroupSet(expression.alternatives));
      }
    case _ =>
  }

  lemma {:induction false} AlternativesKeep(env: Env, mods: Modifiers, alternatives: seq<Sequence>, backward: bool, x: Cursor)
    requires Valid(env, x)
    ensures AllKeep(x, MatchAlternatives(env, mods, alternatives, backward, x), AlternativesGroupSet(alternatives))
    decreases alternatives, 0, 0, 0, 0, 0
  {
    if alternatives != [] {
      TermsKeep(env, mods, alternatives[0].terms, backward, x);
      if |alternatives| > 1 {
        AlternativesKeep(env, mods, alternatives[1..], backward, x);
      }
    }
  }

  /** The groups of a sequence are those of its first term and of the rest, in either direction. */
  lemma {:induction false} GroupSetFirstRest(terms: seq<Term>, backward: bool)
    requires terms != []
    ensures TermsGroupSet(terms) == TermGroupSet(First(terms, backward)) + TermsGroupSet(Rest(terms, backward))
    decreases |terms|
  {
    if backward && |terms| > 1 {
      GroupSetFirstRest(terms[1..], true);
      assert terms[1..][..|terms| - 2] == terms[..|terms| - 1][1..];
    }
  }

  lemma {:induction false} TermsKeep(env: Env, mods: Modifiers, terms: seq<Term>, backward: bool, x: Cursor)
    requires Valid(env, x)
    ensures AllKeep(x, MatchTerms(env, mods, terms, backward, x), TermsGroupSet(terms))
    decreases terms, 1, 0, 0, 0, 0
  {
    if terms != [] {
      var ys := MatchTerm(env, mods, First(terms, backward), backward, x);
      TermKeeps(env, mods, First(terms, backward), backward, x);
      GroupSetFirstRest(terms, backward);
      TermsAllKeep(env, mods, Rest(terms, backward), backward, x, ys, TermsGroupSet(terms));
    }
  }

  lemma {:induction false} TermsAllKeep(env: Env, mods: Modifiers, terms: seq<Term>, backward: bool, x: Cursor,
                                        ys: seq<Cursor>, groups: set<nat>)
    requires Valid(env, x) && AllMove(env, backward, x, ys)
    requires AllKeep(x, ys, groups) && TermsGroupSet(terms) <= groups
    ensures AllKeep(x, MatchTermsAll(env, mods, terms, backward, x, ys), groups)
    decreases terms, 2, 0, 0, 0, |ys|
  {
    if ys != [] {
      TermsKeep(env, mods, terms, backward, ys[0]);
      KeepThen(x, ys[0], MatchTerms(env, mods, terms, backward, ys[0]), TermsGroupSet(terms), groups);
      TermsAllKeep(env, mods, terms, backward, x, ys[1..], groups);
    }
  }

  lemma {:induction false} TermKeeps(env: Env, mods: Modifiers, term: Term, backward: bool, x: Cursor)
    requires Valid(env, x)
    ensures AllKeep(x, MatchTerm(env, mods, term, backward, x), TermGroupSet(term))
    decreases term, 0, 0, 0, 0, 0
  {
    match term.quantifier
    case None => AtomKeeps(env, mods, term.atom, backward, x);
    case Some(q) => RepeatKeeps(env, mods, term.atom, q.minimum, q.maximum, q.greedy, backward, x);
  }

  lemma {:induction false} RepeatKeeps(env: Env, mods: Modifiers, atom: Atom, minimum: nat, maximum: Option<nat>,
                                       greedy: bool, backward: bool, x: Cursor)
    requires Valid(env, x)
    ensures AllKeep(x, Repeat(env, mods, atom, minimum, maximum, greedy, backward, x), Groups(atom))
    decreases atom, 1, minimum, Distance(env, backward, x), 1, 0
  {
    if maximum != Some(0) {
      var z := Forget(x, Groups(atom));
      var ys := MatchAtom(env, mods, atom, backward, z);
      AtomKeeps(env, mods, atom, backward, z);
      KeepThen(x, z, ys, Groups(atom), Groups(atom));
      RepeatAllKeeps(env, mods, atom, minimum, maximum, greedy, backward, x, ys);
    }
  }

  lemma {:induction false} RepeatAllKeeps(env: Env, mods: Modifiers, atom: Atom, minimum: nat, maximum: Option<nat>,
                                          greedy: bool, backward: bool, x: Cursor, ys: seq<Cursor>)
    requires maximum != Some(0)
    requires Valid(env, x) && AllMove(env, backward, x, ys) && AllKeep(x, ys, Groups(atom))
    ensures AllKeep(x, RepeatAll(env, mods, atom, minimum, maximum, greedy, backward, x, ys), Groups(atom))
    decreases atom, 1, minimum, Distance(env, backward, x), 0, |ys|
  {
    if ys != [] {
      RepeatAllKeeps(env, mods, atom, minimum, maximum, greedy, backward, x, ys[1..]);
      if !(minimum == 0 && ys[0].position == x.position) {
        var minimum' := if minimum > 0 then minimum - 1 else 0;
        RepeatKeeps(env, mods, atom, minimum', Less(maximum), greedy, backward, ys[0]);
        KeepThen(x, ys[0], Repeat(env, mods, atom, minimum', Less(maximum), greedy, backward, ys[0]),
                 Groups(atom), Groups(atom));
      }
    }
  }

  // ---- A node that is not nullable always moves ----

  predicate Strict(x: Cursor, ys: seq<Cursor>) {
    forall i :: 0 <= i < |ys| ==> ys[i].position != x.position
  }

  lemma {:induction false} StringsStrict(env: Env, ignoreCase: bool, strings: seq<seq<nat>>, backward: bool, x: Cursor)
    requires Valid(env, x) && [] !in strings
    ensures Strict(x, MatchStrings(env, ignoreCase, strings, backward, x))
    decreases strings
  {
    if strings != [] {
      StringsStrict(env, ignoreCase, strings[1..], backward, x);
    }
  }

  lemma {:induction false} AtomStrict(env: Env, mods: Modifiers, atom: Atom, backward: bool, x: Cursor,
                                      first: nat, total: nat)
    requires Valid(env, x) && !CanMatchEmpty(atom) && WellFormed(atom, first, total, true)
    ensures Strict(x, MatchAtom(env, mods, atom, backward, x))
    decreases atom, 0, 0
  {
    match atom
    case Class(class_) =>
      StringsStrict(env, mods.ignoreCase, LongestFirst(class_.strings), backward, x);
    case Group(capture, modifiers, expression) =>
      var inner := if modifiers.Some? then modifiers.value else mods;
      AlternativesStrict(env, inner, expression.alternatives, backward, x,
                         if capture.Some? then first + 1 else first, total);
    case _ =>
  }

  lemma {:induction false} AlternativesStrict(env: Env, mods: Modifiers, alternatives: seq<Sequence>, backward: bool,
                                              x: Cursor, first: nat, total: nat)
    requires Valid(env, x) && !AnyEmpty(alternatives) && alternatives != []
    requires WellFormedAlternatives(alternatives, first, total, true)
    ensures Strict(x, MatchAlternatives(env, mods, alternatives, backward, x))
    decreases alternatives, 0, 0
  {
    TermsStrict(env, mods, alternatives[0].terms, backward, x, first, total);
    if |alternatives| > 1 {
      AlternativesStrict(env, mods, alternatives[1..], backward, x, first + TermsGroups(alternatives[0].terms), total);
    }
  }

  lemma {:induction false} AllEmptyFirstRest(terms: seq<Term>, backward: bool)
    requires terms != []
    ensures AllEmpty(terms) <==> TermCanBeEmpty(First(terms, backward)) && AllEmpty(Rest(terms, backward))
    decreases |terms|
  {
    if backward && |terms| > 1 {
      AllEmptyFirstRest(terms[1..], true);
      assert terms[1..][..|terms| - 2] == terms[..|terms| - 1][1..];
    }
  }

  lemma {:induction false} TermsStrict(env: Env, mods: Modifiers, terms: seq<Term>, backward: bool, x: Cursor,
                                       first: nat, total: nat)
    requires Valid(env, x) && !AllEmpty(terms) && WellFormedTerms(terms, first, total, true)
    ensures Strict(x, MatchTerms(env, mods, terms, backward, x))
    decreases terms, 1, 0
  {
    AllEmptyFirstRest(terms, backward);
    WellFormedFirstRest(terms, backward, first, total, true);
    var ys := MatchTerm(env, mods, First(terms, backward), backward, x);
    if !TermCanBeEmpty(First(terms, backward)) {
      TermStrict(env, mods, First(terms, backward), backward, x, FirstGroup(terms, backward, first), total);
    }
    TermsAllStrict(env, mods, Rest(terms, backward), backward, x, ys, RestGroup(terms, backward, first), total);
  }

  lemma {:induction false} TermsAllStrict(env: Env, mods: Modifiers, terms: seq<Term>, backward: bool, x: Cursor,
                                          ys: seq<Cursor>, first: nat, total: nat)
    requires Valid(env, x) && AllMove(env, backward, x, ys) && WellFormedTerms(terms, first, total, true)
    requires Strict(x, ys) || !AllEmpty(terms)
    ensures Strict(x, MatchTermsAll(env, mods, terms, backward, x, ys))
    decreases terms, 2, |ys|
  {
    if ys != [] {
      if !AllEmpty(terms) {
        TermsStrict(env, mods, terms, backward, ys[0], first, total);
      }
      TermsAllStrict(env, mods, terms, backward, x, ys[1..], first, total);
    }
  }

  lemma {:induction false} TermStrict(env: Env, mods: Modifiers, term: Term, backward: bool, x: Cursor,
                                      first: nat, total: nat)
    requires Valid(env, x) && !TermCanBeEmpty(term) && WellFormedTerm(term, first, total, true)
    ensures Strict(x, MatchTerm(env, mods, term, backward, x))
    decreases term, 0, 0
  {
    match term.quantifier
    case None => AtomStrict(env, mods, term.atom, backward, x, first, total);
    case Some(q) =>
      var z := Forget(x, Groups(term.atom));
      AtomStrict(env, mods, term.atom, backward, z, first, total);
      RepeatAllStrict(env, mods, term.atom, q.minimum, q.maximum, q.greedy, backward, x,
                      MatchAtom(env, mods, term.atom, backward, z));
  }

  lemma {:induction false} RepeatAllStrict(env: Env, mods: Modifiers, atom: Atom, minimum: nat, maximum: Option<nat>,
                                           greedy: bool, backward: bool, x: Cursor, ys: seq<Cursor>)
    requires minimum > 0 && maximum != Some(0)
    requires Valid(env, x) && AllMove(env, backward, x, ys) && Strict(x, ys)
    ensures Strict(x, RepeatAll(env, mods, atom, minimum, maximum, greedy, backward, x, ys))
    decreases |ys|
  {
    if ys != [] {
      RepeatAllStrict(env, mods, atom, minimum, maximum, greedy, backward, x, ys[1..]);
    }
  }

  // ---- Required repetitions come first ----

  /** Repeat from each of `ys` in turn. */
  function RepeatEach(env: Env, mods: Modifiers, atom: Atom, minimum: nat, maximum: Option<nat>, greedy: bool,
                      backward: bool, x: Cursor, ys: seq<Cursor>): (r: seq<Cursor>)
    requires Valid(env, x) && AllMove(env, backward, x, ys)
    ensures AllMove(env, backward, x, r)
    decreases |ys|
  {
    if ys == [] then []
    else
      Repeat(env, mods, atom, minimum, maximum, greedy, backward, ys[0])
      + RepeatEach(env, mods, atom, minimum, maximum, greedy, backward, x, ys[1..])
  }

  lemma {:induction false} RepeatEachAppend(env: Env, mods: Modifiers, atom: Atom, maximum: Option<nat>, greedy: bool,
                                            backward: bool, x: Cursor, x': Cursor, ys: seq<Cursor>, zs: seq<Cursor>)
    requires Valid(env, x) && AllMove(env, backward, x, ys) && AllMove(env, backward, x, zs)
    requires Valid(env, x') && AllMove(env, backward, x', ys)
    ensures AllMove(env, backward, x, ys + zs)
    ensures RepeatEach(env, mods, atom, 0, maximum, greedy, backward, x, ys + zs)
         == RepeatEach(env, mods, atom, 0, maximum, greedy, backward, x', ys)
            + RepeatEach(env, mods, atom, 0, maximum, greedy, backward, x, zs)
    decreases |ys|
  {
    if ys == [] {
      assert ys + zs == zs;
    } else {
      assert (ys + zs)[1..] == ys[1..] + zs;
      RepeatEachAppend(env, mods, atom, maximum, greedy, backward, x, x', ys[1..], zs);
    }
  }

  /** `minimum` further iterations are allowed beyond the maximum of the optional part. */
  function Plus(maximum: Option<nat>, minimum: nat): Option<nat> {
    if maximum.None? then None else Some(maximum.value + minimum)
  }

  /** Repeating between `minimum` and `Plus(maximum, minimum)` times is repeating exactly `minimum` times first. */
  lemma {:induction false} RepeatSplits(env: Env, mods: Modifiers, atom: Atom, minimum: nat, maximum: Option<nat>,
                                        greedy: bool, backward: bool, x: Cursor)
    requires Valid(env, x)
    ensures Repeat(env, mods, atom, minimum, Plus(maximum, minimum), greedy, backward, x)
         == RepeatEach(env, mods, atom, 0, maximum, greedy, backward, x,
                       Repeat(env, mods, atom, minimum, Some(minimum), greedy, backward, x))
    decreases minimum, 1, 0
  {
    if minimum == 0 {
      assert Repeat(env, mods, atom, 0, Some(0), greedy, backward, x) == [x];
    } else {
      var ys := MatchAtom(env, mods, atom, backward, Forget(x, Groups(atom)));
      RepeatAllSplits(env, mods, atom, minimum, maximum, greedy, backward, x, ys);
    }
  }

  lemma {:induction false} RepeatAllSplits(env: Env, mods: Modifiers, atom: Atom, minimum: nat, maximum: Option<nat>,
                                           greedy: bool, backward: bool, x: Cursor, ys: seq<Cursor>)
    requires minimum > 0
    requires Valid(env, x) && AllMove(env, backward, x, ys)
    ensures RepeatAll(env, mods, atom, minimum, Plus(maximum, minimum), greedy, backward, x, ys)
         == RepeatEach(env, mods, atom, 0, maximum, greedy, backward, x,
                       RepeatAll(env, mods, atom, minimum, Some(minimum), greedy, backward, x, ys))
    decreases minimum, 0, |ys|
  {
    hide Repeat;
    hide MatchAtom;
    if ys != [] {
      RepeatSplits(env, mods, atom, minimum - 1, maximum, greedy, backward, ys[0]);
      RepeatAllSplits(env, mods, atom, minimum, maximum, greedy, backward, x, ys[1..]);
      assert Less(Plus(maximum, minimum)) == Plus(maximum, minimum - 1);
      RepeatEachAppend(env, mods, atom, maximum, greedy, backward, x, ys[0],
                       Repeat(env, mods, atom, minimum - 1, Some(minimum - 1), greedy, backward, ys[0]),
                       RepeatAll(env, mods, atom, minimum, Some(minimum), greedy, backward, x, ys[1..]));
    }
  }

  /** The results that are not at `position`. */
  function Moved(position: nat, ys: seq<Cursor>): (r: seq<Cursor>)
    ensures forall i :: 0 <= i < |r| ==> r[i] in ys && r[i].position != position
  {
    if ys == [] then []
    else if ys[0].position == position then Moved(position, ys[1..])
    else [ys[0]] + Moved(position, ys[1..])
  }

  lemma {:induction false} MovedAll(x: Cursor, ys: seq<Cursor>)
    requires Strict(x, ys)
    ensures Moved(x.position, ys) == ys
    decreases |ys|
  {
    if ys != [] {
      MovedAll(x, ys[1..]);
    }
  }

  /** An optional iteration continues from the results that moved. */
  lemma {:induction false} RepeatAllOptional(env: Env, mods: Modifiers, atom: Atom, maximum: Option<nat>, greedy: bool,
                                             backward: bool, x: Cursor, ys: seq<Cursor>)
    requires maximum != Some(0)
    requires Valid(env, x) && AllMove(env, backward, x, ys)
    ensures AllMove(env, backward, x, Moved(x.position, ys))
    ensures RepeatAll(env, mods, atom, 0, maximum, greedy, backward, x, ys)
         == RepeatEach(env, mods, atom, 0, Less(maximum), greedy, backward, x, Moved(x.position, ys))
    decreases |ys|
  {
    if ys != [] {
      RepeatAllOptional(env, mods, atom, maximum, greedy, backward, x, ys[1..]);
      var rest := Moved(x.position, ys[1..]);
      if ys[0].position != x.position {
        assert ([ys[0]] + rest)[1..] == rest;
      }
    }
  }

  /** A required iteration continues from every result. */
  lemma {:induction false} RepeatAllRequired(env: Env, mods: Modifiers, atom: Atom, minimum: nat, maximum: Option<nat>,
                                             greedy: bool, backward: bool, x: Cursor, ys: seq<Cursor>)
    requires minimum > 0 && maximum != Some(0)
    requires Valid(env, x) && AllMove(env, backward, x, ys)
    ensures RepeatAll(env, mods, atom, minimum, maximum, greedy, backward, x, ys)
         == RepeatEach(env, mods, atom, minimum - 1, Less(maximum), greedy, backward, x, ys)
    decreases |ys|
  {
    if ys != [] {
      RepeatAllRequired(env, mods, atom, minimum, maximum, greedy, backward, x, ys[1..]);
    }
  }

  /** No iteration is left. */
  lemma {:induction false} RepeatEachZero(env: Env, mods: Modifiers, atom: Atom, minimum: nat, greedy: bool,
                                          backward: bool, x: Cursor, ys: seq<Cursor>)
    requires Valid(env, x) && AllMove(env, backward, x, ys)
    ensures RepeatEach(env, mods, atom, minimum, Some(0), greedy, backward, x, ys) == ys
    decreases |ys|
  {
    if ys != [] {
      RepeatEachZero(env, mods, atom, minimum, greedy, backward, x, ys[1..]);
    }
  }

  // ---- The groups inside a node are numbered consecutively ----

  lemma {:induction false} AtomNumbered(atom: Atom, first: nat, total: nat, strict: bool)
    requires WellFormed(atom, first, total, strict)
    ensures forall g :: g in Groups(atom) <==> first <= g < first + GroupCount(atom)
    ensures CaptureRange(atom) ==
      if GroupCount(atom) == 0 then None else Some((first, first + GroupCount(atom) - 1))
    ensures GroupCount(atom) > 0 ==> first + GroupCount(atom) <= total
    decreases atom
  {
    match atom
    case LookAround(_, _, expression) => AlternativesNumbered(expression.alternatives, first, total, strict);
    case Group(capture, _, expression) =>
      AlternativesNumbered(expression.alternatives, if capture.Some? then first + 1 else first, total, strict);
    case _ =>
  }

  lemma {:induction false} AlternativesNumbered(alternatives: seq<Sequence>, first: nat, total: nat, strict: bool)
    requires WellFormedAlternatives(alternatives, first, total, strict)
    ensures forall g :: g in AlternativesGroupSet(alternatives) <==> first <= g < first + AlternativesGroups(alternatives)
    ensures AlternativesRange(alternatives) ==
      if AlternativesGroups(alternatives) == 0 then None
      else Some((first, first + AlternativesGroups(alternatives) - 1))
    ensures AlternativesGroups(alternatives) > 0 ==> first + AlternativesGroups(alternatives) <= total
    decreases alternatives
  {
    if alternatives != [] {
      TermsNumbered(alternatives[0].terms, first, total, strict);
      AlternativesNumbered(alternatives[1..], first + TermsGroups(alternatives[0].terms), total, strict);
    }
  }

  lemma {:induction false} TermsNumbered(terms: seq<Term>, first: nat, total: nat, strict: bool)
    requires WellFormedTerms(terms, first, total, strict)
    ensures forall g :: g in TermsGroupSet(terms) <==> first <= g < first + TermsGroups(terms)
    ensures TermsRange(terms) == if TermsGroups(terms) == 0 then None else Some((first, first + TermsGroups(terms) - 1))
    ensures TermsGroups(terms) > 0 ==> first + TermsGroups(terms) <= total
    decreases terms
  {
    if terms != [] {
      TermNumbered(terms[0], first, total, strict);
      TermsNumbered(terms[1..], first + TermGroups(terms[0]), total, strict);
    }
  }

  lemma {:induction false} TermNumbered(term: Term, first: nat, total: nat, strict: bool)
    requires WellFormedTerm(term, first, total, strict)
    ensures forall g :: g in TermGroupSet(term) <==> first <= g < first + TermGroups(term)
    ensures TermRange(term) == if TermGroups(term) == 0 then None else Some((first, first + TermGroups(term) - 1))
    ensures TermGroups(term) > 0 ==> first + TermGroups(term) <= total
    decreases term
  {
    AtomNumbered(term.atom, first, total, strict && !Dropped(term));
  }
}
