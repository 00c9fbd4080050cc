/**
 * What a pattern without back references means, said without a direction: which stretches of the input belong to
 * it. Matching forward from the start of a stretch and backward from its end finds the same ones.
 */
module Languages {
  import opened Basics
  import opened Characters
  import opened Pattern
  import opened Matcher
  import opened CompiledPrograms
  import Machine
  import Code
  import Runs

  // ---- Stretches ----

  /** Two character boundaries in order. */
  predicate Between(env: Env, p: nat, q: nat) {
    p <= q && Boundary(env.input, p, env.unicode) && Boundary(env.input, q, env.unicode)
  }

  /** Atoms that match characters; a class may also match strings. */
  predicate IsCharacter(atom: Atom) {
    atom.Literal? || atom.Dot? || atom.Space? || atom.Class?
  }

  /** One character that the atom accepts. */
  ghost predicate CharacterSpan(env: Env, mods: Modifiers, atom: Atom, p: nat, q: nat) {
    Between(env, p, q) && exists c: nat :: Text(env, p, q) == [c] && Accepts(env, mods, atom, c)
  }

  /** A string, up to case. */
  predicate StringSpan(env: Env, ignoreCase: bool, s: seq<nat>, p: nat, q: nat) {
    Between(env, p, q) && FoldAll(env, ignoreCase, Text(env, p, q)) == s
  }

  ghost predicate StringsSpan(env: Env, ignoreCase: bool, strings: seq<seq<nat>>, p: nat, q: nat) {
    exists s :: s in strings && StringSpan(env, ignoreCase, s, p, q)
  }

  // ---- Languages ----

  /** A stretch of the input. */
  datatype Stretch = Stretch(from: nat, to: nat)

  type Language = iset<Stretch>

  /** Reaching `q` from `p`: `p` is where a stretch starts, or where it ends when matching goes backward. */
  ghost predicate Leads(language: Language, backward: bool, p: nat, q: nat) {
    if backward then Stretch(q, p) in language else Stretch(p, q) in language
  }

  /** A stretch of the first language, and then one of the second. */
  ghost function Then(a: Language, b: Language): Language {
    iset s: Stretch | exists r: nat :: Stretch(s.from, r) in a && Stretch(r, s.to) in b
  }

  ghost function Nothing(): Language {
    iset s: Stretch | s.from == s.to
  }

  /** Where the language has a stretch from here, or has none. */
  ghost function Seen(language: Language, backward: bool, negative: bool): Language {
    iset s: Stretch | s.from == s.to && negative != exists q: nat :: Leads(language, backward, s.from, q)
  }

  ghost function AtomLanguage(env: Env, mods: Modifiers, atom: Atom): Language
    decreases atom, 0
  {
    match atom
    case Class(class_) =>
      iset s: Stretch |
        || CharacterSpan(env, mods, atom, s.from, s.to)
        || StringsSpan(env, mods.ignoreCase, class_.strings, s.from, s.to)
    case LookAround(negative, backward, expression) =>
      Seen(AlternativesLanguage(env, mods, expression.alternatives), backward, negative)
    case Group(_, modifiers, expression) =>
      AlternativesLanguage(env, if modifiers.Some? then modifiers.value else mods, expression.alternatives)
    case BackReference(_) => iset{}
    case _ =>
      if IsCharacter(atom) then iset s: Stretch | CharacterSpan(env, mods, atom, s.from, s.to)
      else iset s: Stretch | s.from == s.to && Holds(env, mods, atom, s.from)
  }

  ghost function AlternativesLanguage(env: Env, mods: Modifiers, alternatives: seq<Sequence>): Language
    decreases alternatives, 0
  {
    if alternatives == [] then iset{}
    else TermsLanguage(env, mods, alternatives[0].terms) + AlternativesLanguage(env, mods, alternatives[1..])
  }

  /** The terms one after the other, in reading order. */
  ghost function TermsLanguage(env: Env, mods: Modifiers, terms: seq<Term>): Language
    decreases terms, 0
  {
    if terms == [] then Nothing() else Then(TermLanguage(env, mods, terms[0]), TermsLanguage(env, mods, terms[1..]))
  }

  ghost function TermLanguage(env: Env, mods: Modifiers, term: Term): Language
    decreases term, 0
  {
    var language := AtomLanguage(env, mods, term.atom);
    if term.quantifier.None? then language else Repeated(language, term.quantifier.value)
  }

  /** As often as the quantifier allows. */
  ghost function Repeated(language: Language, q: Quantifier): Language {
    iset s: Stretch | SomeTimes(language, q, s)
  }

  ghost predicate SomeTimes(language: Language, q: Quantifier, s: Stretch) {
    exists n: nat :: Allowed(q, n) && s in Times(language, n)
  }

  predicate Allowed(q: Quantifier, n: nat) {
    q.minimum <= n && (q.maximum.Some? ==> n <= q.maximum.value)
  }

  ghost function Times(language: Language, n: nat): Language {
    if n == 0 then Nothing() else Then(language, Times(language, n - 1))
  }

  // ---- Patterns without back references ----

  predicate Plain(atom: Atom)
    decreases atom
  {
    match atom
    case BackReference(_) => false
    case LookAround(_, _, expression) => PlainAlternatives(expression.alternatives)
    case Group(_, _, expression) => PlainAlternatives(expression.alternatives)
    case _ => true
  }

  predicate PlainAlternatives(alternatives: seq<Sequence>)
    decreases alternatives
  {
    alternatives != [] && forall i :: 0 <= i < |alternatives| ==> PlainTerms(alternatives[i].terms)
  }

  predicate PlainTerms(terms: seq<Term>)
    decreases terms
  {
    forall i :: 0 <= i < |terms| ==> PlainTerm(terms[i])
  }

  predicate PlainTerm(term: Term)
    decreases term
  {
    Plain(term.atom) && (term.quantifier.Some? ==> ValidQuantifier(term.quantifier.value))
  }

  // ---- Text ----

  /** Reading one character, from either side. */
  lemma ReadsText(env: Env, p: nat, q: nat, c: nat)
    requires Boundary(env.input, p, env.unicode) && Boundary(env.input, q, env.unicode)
    ensures ReadCharacter(env.input, p, env.unicode) == Some(Reading(c, q)) <==> p < q && Text(env, p, q) == [c]
    ensures ReadPrevious(env.input, q, env.unicode) == Some(Reading(c, p)) <==> p < q && Text(env, p, q) == [c]
  {
    ForwardThenBackward(env.input, p, env.unicode);
    BackwardThenForward(env.input, q, env.unicode);
    if p < q {
      ReadWithin(env, p, q);
      var next := ReadCharacter(env.input, p, env.unicode).value;
      assert Text(env, p, q) == [next.character] + Text(env, next.next, q);
      if next.next < q {
        ReadWithin(env, next.next, q);
        assert |Text(env, p, q)| > 1;
      } else {
        assert Text(env, p, q) == [next.character];
      }
    }
  }

  /** Before a boundary nothing is read that goes beyond it. */
  lemma ReadWithin(env: Env, p: nat, q: nat)
    requires p < q && Boundary(env.input, p, env.unicode) && Boundary(env.input, q, env.unicode)
    ensures var r := ReadCharacter(env.input, p, env.unicode);
            r.Some? && r.value.next <= q && ReadCharacter(env.input[..q], p, env.unicode) == r
            && Boundary(env.input, r.value.next, env.unicode)
  {
  }

  lemma {:induction false} TextJoin(env: Env, p: nat, r: nat, q: nat)
    requires Between(env, p, r) && Between(env, r, q)
    ensures Text(env, p, q) == Text(env, p, r) + Text(env, r, q)
    decreases r - p
  {
    if p < r {
      ReadWithin(env, p, r);
      ReadWithin(env, p, q);
      TextJoin(env, ReadCharacter(env.input, p, env.unicode).value.next, r, q);
    }
  }

  lemma {:induction false} FoldJoin(env: Env, ignoreCase: bool, a: seq<nat>, b: seq<nat>)
    ensures FoldAll(env, ignoreCase, a + b) == FoldAll(env, ignoreCase, a) + FoldAll(env, ignoreCase, b)
    ensures |FoldAll(env, ignoreCase, a)| == |a|
    decreases |a|
  {
    if a == [] {
      assert a + b == b;
    } else {
      assert (a + b)[1..] == a[1..] + b;
      FoldJoin(env, ignoreCase, a[1..], b);
    }
  }

  lemma FoldOne(env: Env, ignoreCase: bool, c: nat)
    ensures FoldAll(env, ignoreCase, [c]) == [Fold(env, ignoreCase, c)]
  {
    assert [c][1..] == [];
  }

  lemma EmptyText(env: Env, p: nat, q: nat)
    requires Between(env, p, q)
    ensures Text(env, p, q) == [] <==> p == q
  {
    if p < q {
      ReadWithin(env, p, q);
    }
  }

  // ---- Strings ----

  lemma {:induction false} ForwardString(env: Env, ignoreCase: bool, s: seq<nat>, p: nat, q: nat)
    requires Boundary(env.input, p, env.unicode)
    ensures MatchForward(env, ignoreCase, s, p) == Some(q) <==> StringSpan(env, ignoreCase, s, p, q)
    decreases |s|
  {
    hide ReadCharacter;
    hide Fold;
    FoldJoin(env, ignoreCase, if Between(env, p, q) then Text(env, p, q) else [], []);
    if s == [] {
      if Between(env, p, q) {
        EmptyText(env, p, q);
      }
    } else {
      ForwardThenBackward(env.input, p, env.unicode);
      var next := ReadCharacter(env.input, p, env.unicode);
      if next.Some? {
        ForwardString(env, ignoreCase, s[1..], next.value.next, q);
        if Between(env, next.value.next, q) {
          FirstText(env, ignoreCase, p, q, next.value);
        } else if Between(env, p, q) && p < q {
          ReadWithin(env, p, q);
        }
      }
      if Between(env, p, q) {
        EmptyText(env, p, q);
      }
    }
  }

  lemma FirstText(env: Env, ignoreCase: bool, p: nat, q: nat, next: Reading)
    requires ReadCharacter(env.input, p, env.unicode) == Some(next) && Boundary(env.input, p, env.unicode)
    requires Between(env, next.next, q) && p < next.next
    ensures FoldAll(env, ignoreCase, Text(env, p, q))
         == [Fold(env, ignoreCase, next.character)] + FoldAll(env, ignoreCase, Text(env, next.next, q))
  {
    ReadsText(env, p, next.next, next.character);
    TextJoin(env, p, next.next, q);
    FoldJoin(env, ignoreCase, [next.character], Text(env, next.next, q));
    FoldOne(env, ignoreCase, next.character);
  }

  lemma LastText(env: Env, ignoreCase: bool, p: nat, q: nat, previous: Reading)
    requires ReadPrevious(env.input, q, env.unicode) == Some(previous) && Boundary(env.input, q, env.unicode)
    requires Between(env, p, previous.next) && previous.next < q
    ensures FoldAll(env, ignoreCase, Text(env, p, q))
         == FoldAll(env, ignoreCase, Text(env, p, previous.next)) + [Fold(env, ignoreCase, previous.character)]
  {
    ReadsText(env, previous.next, q, previous.character);
    TextJoin(env, p, previous.next, q);
    FoldJoin(env, ignoreCase, Text(env, p, previous.next), [previous.character]);
    FoldOne(env, ignoreCase, previous.character);
  }

  lemma {:induction false} BackwardString(env: Env, ignoreCase: bool, s: seq<nat>, p: nat, q: nat)
    requires Boundary(env.input, q, env.unicode)
    ensures MatchBackward(env, ignoreCase, s, q) == Some(p) <==> StringSpan(env, ignoreCase, s, p, q)
    decreases |s|
  {
    hide ReadCharacter;
    hide Fold;
    FoldJoin(env, ignoreCase, if Between(env, p, q) then Text(env, p, q) else [], []);
    if s == [] {
      if Between(env, p, q) {
        EmptyText(env, p, q);
      }
    } else {
      BackwardThenForward(env.input, q, env.unicode);
      var previous := ReadPrevious(env.input, q, env.unicode);
      if previous.Some? {
        BackwardString(env, ignoreCase, s[..|s| - 1], p, previous.value.next);
        if Between(env, p, previous.value.next) {
          LastText(env, ignoreCase, p, q, previous.value);
        } else if Between(env, p, q) && p < q {
          ReadBack(env, p, q);
        }
      }
      if Between(env, p, q) {
        EmptyText(env, p, q);
      }
    }
  }

  lemma ReadBack(env: Env, p: nat, q: nat)
    requires p < q && Boundary(env.input, p, env.unicode) && Boundary(env.input, q, env.unicode)
    ensures var r := ReadPrevious(env.input, q, env.unicode);
            r.Some? && p <= r.value.next && Boundary(env.input, r.value.next, env.unicode)
  {
  }

  // ---- Results and stretches ----

  /** Some result is at the position. */
  predicate Hits(ys: seq<Cursor>, q: nat) {
    exists i :: 0 <= i < |ys| && ys[i].position == q
  }

  lemma HitsAppend(ys: seq<Cursor>, zs: seq<Cursor>, q: nat)
    ensures Hits(ys + zs, q) <==> Hits(ys, q) || Hits(zs, q)
  {
    if Hits(ys, q) {
      var i :| 0 <= i < |ys| && ys[i].position == q;
      assert (ys + zs)[i].position == q;
    }
    if Hits(zs, q) {
      var i :| 0 <= i < |zs| && zs[i].position == q;
      assert (ys + zs)[|ys| + i].position == q;
    }
  }

  // ---- Leaves ----

  ghost predicate CharacterFrom(env: Env, mods: Modifiers, atom: Atom, backward: bool, p: nat, q: nat) {
    if backward then CharacterSpan(env, mods, atom, q, p) else CharacterSpan(env, mods, atom, p, q)
  }

  lemma CharacterForward(env: Env, mods: Modifiers, atom: Atom, p: nat, q: nat)
    requires Boundary(env.input, p, env.unicode)
    ensures var next := ReadCharacter(env.input, p, env.unicode);
            CharacterSpan(env, mods, atom, p, q) <==>
            next.Some? && next.value.next == q && Accepts(env, mods, atom, next.value.character)
  {
    hide Text;
    hide Accepts;
    hide ReadCharacter;
    ForwardThenBackward(env.input, p, env.unicode);
    var next := ReadCharacter(env.input, p, env.unicode);
    if next.Some? {
      ReadsText(env, p, next.value.next, next.value.character);
    }
    if CharacterSpan(env, mods, atom, p, q) {
      var c: nat :| Text(env, p, q) == [c] && Accepts(env, mods, atom, c);
      EmptyText(env, p, q);
      ReadsText(env, p, q, c);
    }
  }

  lemma CharacterBackward(env: Env, mods: Modifiers, atom: Atom, p: nat, q: nat)
    requires Boundary(env.input, q, env.unicode)
    ensures var previous := ReadPrevious(env.input, q, env.unicode);
            CharacterSpan(env, mods, atom, p, q) <==>
            previous.Some? && previous.value.next == p && Accepts(env, mods, atom, previous.value.character)
  {
    hide Text;
    hide Accepts;
    hide ReadPreviousBounded;
    BackwardThenForward(env.input, q, env.unicode);
    var previous := ReadPrevious(env.input, q, env.unicode);
    if previous.Some? {
      ReadsText(env, previous.value.next, q, previous.value.character);
    }
    if CharacterSpan(env, mods, atom, p, q) {
      var c: nat :| Text(env, p, q) == [c] && Accepts(env, mods, atom, c);
      EmptyText(env, p, q);
      ReadsText(env, p, q, c);
    }
  }

  lemma CharacterHits(env: Env, mods: Modifiers, atom: Atom, backward: bool, x: Cursor, q: nat)
    requires Valid(env, x)
    ensures Hits(MatchOne(env, mods, atom, backward, x), q) <==> CharacterFrom(env, mods, atom, backward, x.position, q)
  {
    hide CharacterSpan;
    hide Accepts;
    hide ReadCharacter;
    hide ReadPreviousBounded;
    CharacterForward(env, mods, atom, x.position, q);
    CharacterBackward(env, mods, atom, q, x.position);
  }

  predicate StringFrom(env: Env, ignoreCase: bool, s: seq<nat>, backward: bool, p: nat, q: nat) {
    if backward then StringSpan(env, ignoreCase, s, q, p) else StringSpan(env, ignoreCase, s, p, q)
  }

  lemma StringHits(env: Env, ignoreCase: bool, s: seq<nat>, backward: bool, x: Cursor, q: nat)
    requires Valid(env, x)
    ensures Hits(MatchString(env, ignoreCase, s, backward, x), q) <==> StringFrom(env, ignoreCase, s, backward, x.position, q)
  {
    hide StringSpan;
    hide MatchForward;
    hide MatchBackward;
    if backward {
      BackwardString(env, ignoreCase, s, q, x.position);
    } else {
      ForwardString(env, ignoreCase, s, x.position, q);
    }
  }

  predicate StringsFrom(env: Env, ignoreCase: bool, strings: seq<seq<nat>>, backward: bool, p: nat, q: nat) {
    exists s :: s in strings && StringFrom(env, ignoreCase, s, backward, p, q)
  }

  lemma {:induction false} StringsHit(env: Env, ignoreCase: bool, strings: seq<seq<nat>>, backward: bool, x: Cursor, q: nat)
    requires Valid(env, x)
    ensures Hits(MatchStrings(env, ignoreCase, strings, backward, x), q) <==>
      StringsFrom(env, ignoreCase, strings, backward, x.position, q)
    decreases |strings|
  {
    hide StringFrom;
    hide MatchString;
    hide Hits;
    if strings != [] {
      StringHits(env, ignoreCase, strings[0], backward, x, q);
      StringsHit(env, ignoreCase, strings[1..], backward, x, q);
      HitsAppend(MatchString(env, ignoreCase, strings[0], backward, x),
                 MatchStrings(env, ignoreCase, strings[1..], backward, x), q);
      if StringsFrom(env, ignoreCase, strings, backward, x.position, q) {
        var s :| s in strings && StringFrom(env, ignoreCase, s, backward, x.position, q);
        assert s == strings[0] || s in strings[1..];
      }
    } else {
      NoHits(q);
    }
  }

  lemma NoHits(q: nat)
    ensures !Hits([], q)
  {
  }

  lemma ClassHits(env: Env, mods: Modifiers, atom: Atom, backward: bool, x: Cursor, q: nat)
    requires Valid(env, x) && atom.Class?
    ensures Hits(MatchClass(env, mods, atom, backward, x), q) <==> Leads(AtomLanguage(env, mods, atom), backward, x.position, q)
  {
    hide StringSpan;
    hide CharacterSpan;
    hide MatchStrings;
    hide MatchOne;
    hide Hits;
    hide LongestFirst;
    var strings := atom.class_.strings;
    var one, empty := MatchOne(env, mods, atom, backward, x), if [] in strings then [x] else [];
    StringsHit(env, mods.ignoreCase, LongestFirst(strings), backward, x, q);
    CharacterHits(env, mods, atom, backward, x, q);
    HitsAppend(one, empty, q);
    HitsAppend(MatchStrings(env, mods.ignoreCase, LongestFirst(strings), backward, x), one + empty, q);
    StayHits(env, mods.ignoreCase, backward, x, q);
    NoHits(q);
  }

  /** The empty string spans nothing but where it stands. */
  lemma StayHits(env: Env, ignoreCase: bool, backward: bool, x: Cursor, q: nat)
    requires Valid(env, x)
    ensures Hits([x], q) <==> q == x.position
    ensures StringFrom(env, ignoreCase, [], backward, x.position, q) <==> q == x.position
  {
    hide Text;
    assert [x][0] == x;
    var from, to := if backward then q else x.position, if backward then x.position else q;
    if Between(env, from, to) {
      EmptyText(env, from, to);
      FoldJoin(env, ignoreCase, Text(env, from, to), []);
    }
  }

  // ---- Sequences and repetitions from their end ----

  lemma ThenAssociative(a: Language, b: Language, c: Language)
    ensures Then(a, Then(b, c)) == Then(Then(a, b), c)
  {
    forall s: Stretch
      ensures s in Then(a, Then(b, c)) <==> s in Then(Then(a, b), c)
    {
      if s in Then(a, Then(b, c)) {
        var r: nat :| Stretch(s.from, r) in a && Stretch(r, s.to) in Then(b, c);
        var t: nat :| Stretch(r, t) in b && Stretch(t, s.to) in c;
        assert Stretch(s.from, t) in Then(a, b);
      }
      if s in Then(Then(a, b), c) {
        var t: nat :| Stretch(s.from, t) in Then(a, b) && Stretch(t, s.to) in c;
        var r: nat :| Stretch(s.from, r) in a && Stretch(r, t) in b;
        assert Stretch(r, s.to) in Then(b, c);
      }
    }
  }

  lemma ThenNothing(a: Language)
    ensures Then(a, Nothing()) == a == Then(Nothing(), a)
  {
    forall s: Stretch
      ensures s in Then(a, Nothing()) <==> s in a
      ensures s in Then(Nothing(), a) <==> s in a
    {
      assert s == Stretch(s.from, s.to);
      assert Stretch(s.from, s.from) in Nothing() && Stretch(s.to, s.to) in Nothing();
    }
  }

  lemma {:induction false} TermsLast(env: Env, mods: Modifiers, terms: seq<Term>)
    requires terms != []
    ensures TermsLanguage(env, mods, terms) ==
      Then(TermsLanguage(env, mods, terms[..|terms| - 1]), TermLanguage(env, mods, terms[|terms| - 1]))
    decreases |terms|
  {
    hide Then;
    hide Nothing;
    var front, last := terms[..|terms| - 1], TermLanguage(env, mods, terms[|terms| - 1]);
    ThenNothing(last);
    if |terms| > 1 {
      assert front[0] == terms[0] && front[1..] == terms[1..][..|terms| - 2];
      TermsLast(env, mods, terms[1..]);
      ThenAssociative(TermLanguage(env, mods, terms[0]), TermsLanguage(env, mods, front[1..]), last);
    } else {
      assert terms[1..] == [] && front == [];
    }
  }

  lemma {:induction false} TimesLast(language: Language, n: nat)
    requires n > 0
    ensures Times(language, n) == Then(Times(language, n - 1), language)
    decreases n
  {
    hide Then;
    hide Nothing;
    if n > 1 {
      TimesLast(language, n - 1);
      ThenAssociative(language, Times(language, n - 2), language);
    } else {
      ThenNothing(language);
    }
  }

  /** By way of some position in between. */
  ghost predicate Through(a: Language, b: Language, backward: bool, p: nat, q: nat) {
    exists r: nat :: Leads(a, backward, p, r) && Leads(b, backward, r, q)
  }

  /** Both halves of a stretch, taken in the direction of matching. */
  lemma ThenLeads(a: Language, b: Language, backward: bool, p: nat, q: nat)
    ensures Leads(if backward then Then(b, a) else Then(a, b), backward, p, q) <==> Through(a, b, backward, p, q)
  {
    if backward {
      if Stretch(q, p) in Then(b, a) {
        var r: nat :| Stretch(q, r) in b && Stretch(r, p) in a;
        assert Leads(a, true, p, r) && Leads(b, true, r, q);
      }
      if r: nat :| Leads(a, true, p, r) && Leads(b, true, r, q) {
        assert Stretch(q, r) in b && Stretch(r, p) in a;
      }
    } else {
      if Stretch(p, q) in Then(a, b) {
        var r: nat :| Stretch(p, r) in a && Stretch(r, q) in b;
        assert Leads(a, false, p, r) && Leads(b, false, r, q);
      }
      if r: nat :| Leads(a, false, p, r) && Leads(b, false, r, q) {
        assert Stretch(p, r) in a && Stretch(r, q) in b;
      }
    }
  }

  lemma TermsStep(env: Env, mods: Modifiers, terms: seq<Term>, backward: bool, p: nat, q: nat)
    requires terms != []
    ensures Leads(TermsLanguage(env, mods, terms), backward, p, q) <==>
      Through(TermLanguage(env, mods, First(terms, backward)), TermsLanguage(env, mods, Rest(terms, backward)), backward, p, q)
  {
    hide Then;
    hide Leads;
    hide Through;
    TermsLast(env, mods, terms);
    ThenLeads(TermLanguage(env, mods, First(terms, backward)), TermsLanguage(env, mods, Rest(terms, backward)),
              backward, p, q);
  }

  lemma TimesStep(language: Language, n: nat, backward: bool, p: nat, q: nat)
    requires n > 0
    ensures Leads(Times(language, n), backward, p, q) <==> Through(language, Times(language, n - 1), backward, p, q)
  {
    hide Then;
    hide Leads;
    hide Through;
    TimesLast(language, n);
    ThenLeads(language, Times(language, n - 1), backward, p, q);
  }

  // ---- Matching finds exactly the stretches of the language ----

  /** From every cursor the results of the atom are those of the language. */
  ghost predicate Means(env: Env, mods: Modifiers, atom: Atom, backward: bool, language: Language) {
    forall x: Cursor, q: nat :: Valid(env, x) ==>
      (Hits(MatchAtom(env, mods, atom, backward, x), q) <==> Leads(language, backward, x.position, q))
  }

  /** Some number of repetitions within the bounds. */
  ghost predicate Repeatable(language: Language, minimum: nat, maximum: Option<nat>, backward: bool, p: nat, q: nat) {
    exists n: nat :: Allowed(Quantifier(minimum, maximum, true), n) && Leads(Times(language, n), backward, p, q)
  }

  lemma {:induction false} RepeatSound(env: Env, mods: Modifiers, atom: Atom, minimum: nat, maximum: Option<nat>,
                                       greedy: bool, backward: bool, x: Cursor, language: Language, q: nat)
    requires Valid(env, x) && Means(env, mods, atom, backward, language)
    requires maximum.Some? ==> minimum <= maximum.value
    requires Hits(Repeat(env, mods, atom, minimum, maximum, greedy, backward, x), q)
    ensures Repeatable(language, minimum, maximum, backward, x.position, q)
    decreases minimum, Distance(env, backward, x), 1, 0
  {
    hide MatchAtom;
    hide Leads;
    hide RepeatAll;
    hide Hits;
    StayRepeatable(language, minimum, maximum, backward, x, q);
    if maximum != Some(0) {
      var y := Forget(x, Groups(atom));
      var ys := MatchAtom(env, mods, atom, backward, y);
      var again := RepeatAll(env, mods, atom, minimum, maximum, greedy, backward, x, ys);
      HitsAppend(again, [x], q);
      HitsAppend([x], again, q);
      forall i | 0 <= i < |ys|
        ensures Leads(language, backward, x.position, ys[i].position)
      {
        HitsAt(ys, i);
        assert Hits(MatchAtom(env, mods, atom, backward, y), ys[i].position);
      }
      if Hits(again, q) {
        RepeatAllSound(env, mods, atom, minimum, maximum, greedy, backward, x, ys, language, q);
      }
    }
  }

  lemma StayRepeatable(language: Language, minimum: nat, maximum: Option<nat>, backward: bool, x: Cursor, q: nat)
    ensures Hits([x], q) <==> x.position == q
    ensures minimum == 0 && x.position == q ==> Repeatable(language, minimum, maximum, backward, x.position, q)
  {
    assert [x][0] == x;
    assert Allowed(Quantifier(0, maximum, true), 0);
    if x.position == q {
      assert Leads(Times(language, 0), backward, x.position, q);
    }
  }

  lemma HitsAt(ys: seq<Cursor>, i: nat)
    requires i < |ys|
    ensures Hits(ys, ys[i].position)
  {
  }

  lemma {:induction false} RepeatAllSound(env: Env, mods: Modifiers, atom: Atom, minimum: nat, maximum: Option<nat>,
                                          greedy: bool, backward: bool, x: Cursor, ys: seq<Cursor>,
                                          language: Language, q: nat)
    requires Valid(env, x) && AllMove(env, backward, x, ys) && Means(env, mods, atom, backward, language)
    requires maximum != Some(0) && (maximum.Some? ==> minimum <= maximum.value)
    requires forall i :: 0 <= i < |ys| ==> Leads(language, backward, x.position, ys[i].position)
    requires Hits(RepeatAll(env, mods, atom, minimum, maximum, greedy, backward, x, ys), q)
    ensures Repeatable(language, minimum, maximum, backward, x.position, q)
    decreases minimum, Distance(env, backward, x), 0, |ys|
  {
    hide MatchAtom;
    hide Leads;
    hide Repeat;
    hide Hits;
    hide Repeatable;
    hide Means;
    NoHits(q);
    var less := if minimum > 0 then minimum - 1 else 0;
    var rest := RepeatAll(env, mods, atom, minimum, maximum, greedy, backward, x, ys[1..]);
    if Hits(rest, q) {
      RepeatAllSound(env, mods, atom, minimum, maximum, greedy, backward, x, ys[1..], language, q);
    } else {
      HitsAppend(Repeat(env, mods, atom, less, Less(maximum), greedy, backward, ys[0]), rest, q);
      RepeatSound(env, mods, atom, less, Less(maximum), greedy, backward, ys[0], language, q);
      OneMore(language, minimum, maximum, backward, x.position, ys[0].position, q);
    }
  }

  /** One repetition before the others. */
  lemma OneMore(language: Language, minimum: nat, maximum: Option<nat>, backward: bool, p: nat, r: nat, q: nat)
    requires maximum != Some(0) && Leads(language, backward, p, r)
    requires Repeatable(language, if minimum > 0 then minimum - 1 else 0, Less(maximum), backward, r, q)
    ensures Repeatable(language, minimum, maximum, backward, p, q)
  {
    hide Leads;
    hide Times;
    var less := if minimum > 0 then minimum - 1 else 0;
    var n: nat :| Allowed(Quantifier(less, Less(maximum), true), n) && Leads(Times(language, n), backward, r, q);
    TimesStep(language, n + 1, backward, p, q);
    assert Allowed(Quantifier(minimum, maximum, true), n + 1);
  }

  lemma {:induction false} RepeatComplete(env: Env, mods: Modifiers, atom: Atom, minimum: nat, maximum: Option<nat>,
                                          greedy: bool, backward: bool, x: Cursor, language: Language, n: nat, q: nat)
    requires Valid(env, x) && Means(env, mods, atom, backward, language)
    requires Allowed(Quantifier(minimum, maximum, greedy), n) && Leads(Times(language, n), backward, x.position, q)
    ensures Hits(Repeat(env, mods, atom, minimum, maximum, greedy, backward, x), q)
    decreases n
  {
    hide MatchAtom;
    hide RepeatAll;
    hide Hits;
    StayRepeatable(language, minimum, maximum, backward, x, q);
    if maximum == Some(0) {
    } else {
      var y := Forget(x, Groups(atom));
      var ys := MatchAtom(env, mods, atom, backward, y);
      var again := RepeatAll(env, mods, atom, minimum, maximum, greedy, backward, x, ys);
      HitsAppend(again, [x], q);
      HitsAppend([x], again, q);
      if n > 0 {
        var r := FirstStep(language, n, backward, x.position, q);
        if minimum == 0 && r == x.position {
          RepeatComplete(env, mods, atom, minimum, maximum, greedy, backward, x, language, n - 1, q);
        } else {
          assert Hits(MatchAtom(env, mods, atom, backward, y), r);
          var i := HitIndex(ys, r);
          RepeatComplete(env, mods, atom, if minimum > 0 then minimum - 1 else 0, Less(maximum), greedy, backward, ys[i],
                         language, n - 1, q);
          RepeatAllHas(env, mods, atom, minimum, maximum, greedy, backward, x, ys, i, q);
        }
      }
    }
  }

  lemma FirstStep(language: Language, n: nat, backward: bool, p: nat, q: nat) returns (r: nat)
    requires n > 0 && Leads(Times(language, n), backward, p, q)
    ensures Leads(language, backward, p, r) && Leads(Times(language, n - 1), backward, r, q)
  {
    hide Leads;
    hide Times;
    TimesStep(language, n, backward, p, q);
    r :| Leads(language, backward, p, r) && Leads(Times(language, n - 1), backward, r, q);
  }

  lemma HitIndex(ys: seq<Cursor>, q: nat) returns (i: nat)
    requires Hits(ys, q)
    ensures i < |ys| && ys[i].position == q
  {
    i :| 0 <= i < |ys| && ys[i].position == q;
  }

  lemma {:induction false} RepeatAllHas(env: Env, mods: Modifiers, atom: Atom, minimum: nat, maximum: Option<nat>,
                                        greedy: bool, backward: bool, x: Cursor, ys: seq<Cursor>, i: nat, q: nat)
    requires Valid(env, x) && AllMove(env, backward, x, ys) && maximum != Some(0) && i < |ys|
    requires minimum > 0 || ys[i].position != x.position
    requires Hits(Repeat(env, mods, atom, if minimum > 0 then minimum - 1 else 0, Less(maximum), greedy, backward, ys[i]), q)
    ensures Hits(RepeatAll(env, mods, atom, minimum, maximum, greedy, backward, x, ys), q)
    decreases |ys|
  {
    hide MatchAtom;
    hide Repeat;
    hide Hits;
    var rest := RepeatAll(env, mods, atom, minimum, maximum, greedy, backward, x, ys[1..]);
    HitsAppend(Repeat(env, mods, atom, if minimum > 0 then minimum - 1 else 0, Less(maximum), greedy, backward, ys[0]), rest, q);
    if i > 0 {
      RepeatAllHas(env, mods, atom, minimum, maximum, greedy, backward, x, ys[1..], i - 1, q);
    }
  }

  lemma {:induction false} TermMeans(env: Env, mods: Modifiers, term: Term, backward: bool, x: Cursor, q: nat)
    requires Valid(env, x) && PlainTerm(term)
    ensures Hits(MatchTerm(env, mods, term, backward, x), q) <==>
      Leads(TermLanguage(env, mods, term), backward, x.position, q)
    decreases term, 0, 0
  {
    hide MatchAtom;
    hide AtomLanguage;
    hide Repeat;
    hide Hits;
    hide Times;
    forall y: Cursor, r: nat | Valid(env, y)
      ensures Hits(MatchAtom(env, mods, term.atom, backward, y), r) <==>
        Leads(AtomLanguage(env, mods, term.atom), backward, y.position, r)
    {
      AtomMeans(env, mods, term.atom, backward, y, r);
    }
    if term.quantifier.Some? {
      var language, quantifier := AtomLanguage(env, mods, term.atom), term.quantifier.value;
      var Quantifier(minimum, maximum, greedy) := quantifier;
      RepeatedIsSome(language, quantifier, backward, x.position, q);
      if Hits(Repeat(env, mods, term.atom, minimum, maximum, greedy, backward, x), q) {
        RepeatSound(env, mods, term.atom, minimum, maximum, greedy, backward, x, language, q);
      }
      if n: nat :| Allowed(quantifier, n) && Leads(Times(language, n), backward, x.position, q) {
        RepeatComplete(env, mods, term.atom, minimum, maximum, greedy, backward, x, language, n, q);
      }
    }
  }

  lemma RepeatedIsSome(language: Language, quantifier: Quantifier, backward: bool, p: nat, q: nat)
    ensures Leads(Repeated(language, quantifier), backward, p, q) <==>
      exists n: nat :: Allowed(quantifier, n) && Leads(Times(language, n), backward, p, q)
    ensures Repeatable(language, quantifier.minimum, quantifier.maximum, backward, p, q) <==>
      exists n: nat :: Allowed(quantifier, n) && Leads(Times(language, n), backward, p, q)
  {
    hide Times;
    var s := if backward then Stretch(q, p) else Stretch(p, q);
    assert forall n: nat :: Leads(Times(language, n), backward, p, q) <==> s in Times(language, n);
    assert forall n: nat :: Allowed(Quantifier(quantifier.minimum, quantifier.maximum, true), n) <==> Allowed(quantifier, n);
  }

  lemma {:induction false} AtomMeans(env: Env, mods: Modifiers, atom: Atom, backward: bool, x: Cursor, q: nat)
    requires Valid(env, x) && Plain(atom)
    ensures Hits(MatchAtom(env, mods, atom, backward, x), q) <==> Leads(AtomLanguage(env, mods, atom), backward, x.position, q)
    decreases atom, 0, 0
  {
    hide MatchAlternatives;
    hide AlternativesLanguage;
    hide Hits;
    match atom
    case Class(_) => ClassHits(env, mods, atom, backward, x, q);
    case LookAround(negative, inner, expression) =>
      forall r: nat
        ensures Hits(MatchAlternatives(env, mods, expression.alternatives, inner, x), r) <==>
          Leads(AlternativesLanguage(env, mods, expression.alternatives), inner, x.position, r)
      {
        AlternativesMean(env, mods, expression.alternatives, inner, x, r);
      }
      LookAroundHits(env, mods, atom, backward, x, q);
    case Group(capture, modifiers, expression) =>
      var inner := if modifiers.Some? then modifiers.value else mods;
      AlternativesMean(env, inner, expression.alternatives, backward, x, q);
      CaptureHits(if capture.Some? then capture.value else 0, backward, x,
                  MatchAlternatives(env, inner, expression.alternatives, backward, x), q);
    case _ => LeafHits(env, mods, atom, backward, x, q);
  }

  lemma LeafHits(env: Env, mods: Modifiers, atom: Atom, backward: bool, x: Cursor, q: nat)
    requires Valid(env, x)
    requires !atom.Class? && !atom.LookAround? && !atom.Group? && !atom.BackReference?
    ensures Hits(MatchAtom(env, mods, atom, backward, x), q) <==> Leads(AtomLanguage(env, mods, atom), backward, x.position, q)
  {
    hide CharacterSpan;
    hide MatchOne;
    hide Hits;
    hide Holds;
    CharacterHits(env, mods, atom, backward, x, q);
    StayHits(env, false, backward, x, q);
    NoHits(q);
  }

  lemma LookAroundHits(env: Env, mods: Modifiers, atom: Atom, backward: bool, x: Cursor, q: nat)
    requires Valid(env, x) && atom.LookAround?
    requires forall r: nat ::
      Hits(MatchAlternatives(env, mods, atom.expression.alternatives, atom.backward, x), r) <==>
      Leads(AlternativesLanguage(env, mods, atom.expression.alternatives), atom.backward, x.position, r)
    ensures Hits(MatchAtom(env, mods, atom, backward, x), q) <==> Leads(AtomLanguage(env, mods, atom), backward, x.position, q)
  {
    hide MatchAlternatives;
    hide AlternativesLanguage;
    var ys := MatchAlternatives(env, mods, atom.expression.alternatives, atom.backward, x);
    var language := AlternativesLanguage(env, mods, atom.expression.alternatives);
    if ys != [] {
      HitsAt(ys, 0);
      assert Leads(language, atom.backward, x.position, ys[0].position);
    }
    assert ys == [] <==> !exists r: nat :: Leads(language, atom.backward, x.position, r);
    var found := atom.negative == (ys == []);
    assert Leads(AtomLanguage(env, mods, atom), backward, x.position, q) <==> x.position == q && found;
    if found {
      HitsAt(MatchAtom(env, mods, atom, backward, x), 0);
    }
  }

  lemma CaptureHits(group: nat, backward: bool, x: Cursor, ys: seq<Cursor>, q: nat)
    ensures Hits(CaptureAll(group, backward, x, ys), q) <==> Hits(ys, q)
  {
    var captured := CaptureAll(group, backward, x, ys);
    assert forall i :: 0 <= i < |ys| ==> captured[i].position == ys[i].position;
  }

  lemma {:induction false} AlternativesMean(env: Env, mods: Modifiers, alternatives: seq<Sequence>, backward: bool,
                                            x: Cursor, q: nat)
    requires Valid(env, x) && PlainAlternatives(alternatives)
    ensures Hits(MatchAlternatives(env, mods, alternatives, backward, x), q) <==>
      Leads(AlternativesLanguage(env, mods, alternatives), backward, x.position, q)
    decreases alternatives, 0, 0
  {
    hide MatchTerms;
    hide TermsLanguage;
    hide Hits;
    hide PlainTerms;
    TermsMean(env, mods, alternatives[0].terms, backward, x, q);
    if |alternatives| > 1 {
      AlternativesMean(env, mods, alternatives[1..], backward, x, q);
      HitsAppend(MatchTerms(env, mods, alternatives[0].terms, backward, x),
                 MatchAlternatives(env, mods, alternatives[1..], backward, x), q);
    } else {
      assert AlternativesLanguage(env, mods, alternatives[1..]) == iset{};
    }
  }

  lemma {:induction false} TermsMean(env: Env, mods: Modifiers, terms: seq<Term>, backward: bool, x: Cursor, q: nat)
    requires Valid(env, x) && PlainTerms(terms)
    ensures Hits(MatchTerms(env, mods, terms, backward, x), q) <==>
      Leads(TermsLanguage(env, mods, terms), backward, x.position, q)
    decreases terms, 1, 0
  {
    hide MatchTerm;
    hide MatchTermsAll;
    hide Hits;
    if terms == [] {
      StayHits(env, false, backward, x, q);
    } else {
      var first, rest := First(terms, backward), Rest(terms, backward);
      var ys := MatchTerm(env, mods, first, backward, x);
      assert PlainTerm(first) && first in terms;
      forall r: nat
        ensures Hits(ys, r) <==> Leads(TermLanguage(env, mods, first), backward, x.position, r)
      {
        TermMeans(env, mods, first, backward, x, r);
      }
      TermsAllMean(env, mods, rest, backward, x, ys, q);
      HitsThrough(ys, TermLanguage(env, mods, first), TermsLanguage(env, mods, rest), backward, x.position, q);
      TermsStep(env, mods, terms, backward, x.position, q);
    }
  }

  lemma HitsThrough(ys: seq<Cursor>, a: Language, b: Language, backward: bool, p: nat, q: nat)
    requires forall r: nat :: Hits(ys, r) <==> Leads(a, backward, p, r)
    ensures Through(a, b, backward, p, q) <==> exists i :: 0 <= i < |ys| && Leads(b, backward, ys[i].position, q)
  {
    hide Hits;
    hide Leads;
    if r: nat :| Leads(a, backward, p, r) && Leads(b, backward, r, q) {
      var i := HitIndex(ys, r);
    }
    if i :| 0 <= i < |ys| && Leads(b, backward, ys[i].position, q) {
      HitsAt(ys, i);
      assert Leads(a, backward, p, ys[i].position);
    }
  }

  lemma {:induction false} TermsAllMean(env: Env, mods: Modifiers, terms: seq<Term>, backward: bool, x: Cursor,
                                        ys: seq<Cursor>, q: nat)
    requires Valid(env, x) && AllMove(env, backward, x, ys) && PlainTerms(terms)
    ensures Hits(MatchTermsAll(env, mods, terms, backward, x, ys), q) <==>
      exists i :: 0 <= i < |ys| && Leads(TermsLanguage(env, mods, terms), backward, ys[i].position, q)
    decreases terms, 2, |ys|
  {
    hide MatchTerms;
    hide Hits;
    hide Leads;
    hide PlainTerms;
    var language := TermsLanguage(env, mods, terms);
    if ys == [] {
      NoHits(q);
    } else {
      TermsMean(env, mods, terms, backward, ys[0], q);
      TermsAllMean(env, mods, terms, backward, x, ys[1..], q);
      HitsAppend(MatchTerms(env, mods, terms, backward, ys[0]), MatchTermsAll(env, mods, terms, backward, x, ys[1..]), q);
      if i :| 0 <= i < |ys| && Leads(language, backward, ys[i].position, q) {
        assert i == 0 || ys[i] == ys[1..][i - 1];
      }
      if i :| 0 <= i < |ys[1..]| && Leads(language, backward, ys[1..][i].position, q) {
        assert ys[1..][i] == ys[i + 1];
      }
    }
  }

  // ---- Direction and reading order ----

  /**
   Matching backward from `x` leads to where `y` stands exactly when matching
   forward from `y` leads to where `x` stands.
   */
  lemma BackwardIsForward(env: Env, mods: Modifiers, terms: seq<Term>, x: Cursor, y: Cursor)
    requires Valid(env, x) && Valid(env, y) && PlainTerms(terms)
    ensures Hits(MatchTerms(env, mods, terms, true, x), y.position) <==>
      Hits(MatchTerms(env, mods, terms, false, y), x.position)
  {
    hide MatchTerms;
    hide TermsLanguage;
    hide Hits;
    TermsMean(env, mods, terms, true, x, y.position);
    TermsMean(env, mods, terms, false, y, x.position);
  }

  /** The same for a whole lookbehind body or group. */
  lemma BackwardAlternatives(env: Env, mods: Modifiers, alternatives: seq<Sequence>, x: Cursor, y: Cursor)
    requires Valid(env, x) && Valid(env, y) && PlainAlternatives(alternatives)
    ensures Hits(MatchAlternatives(env, mods, alternatives, true, x), y.position) <==>
      Hits(MatchAlternatives(env, mods, alternatives, false, y), x.position)
  {
    hide MatchAlternatives;
    hide AlternativesLanguage;
    hide Hits;
    AlternativesMean(env, mods, alternatives, true, x, y.position);
    AlternativesMean(env, mods, alternatives, false, y, x.position);
  }

  function Literals(values: seq<nat>): (r: seq<Term>)
    ensures |r| == |values| && forall i :: 0 <= i < |r| ==> r[i] == Term(Literal(values[i]), None)
  {
    seq(|values|, i requires 0 <= i < |values| => Term(Literal(values[i]), None))
  }

  /** The same character, or the same up to case where case is ignored. */
  predicate Alike(env: Env, ignoreCase: bool, a: nat, b: nat) {
    a == b || (ignoreCase && env.canonicalize(a) == env.canonicalize(b))
  }

  predicate AllAlike(env: Env, ignoreCase: bool, a: seq<nat>, b: seq<nat>) {
    |a| == |b| && forall i :: 0 <= i < |a| ==> Alike(env, ignoreCase, a[i], b[i])
  }

  lemma LiteralCovers(env: Env, mods: Modifiers, value: nat, p: nat, q: nat)
    ensures Stretch(p, q) in TermLanguage(env, mods, Term(Literal(value), None)) <==>
      Between(env, p, q) && AllAlike(env, mods.ignoreCase, Text(env, p, q), [value])
  {
    hide Text;
    if Between(env, p, q) {
      var text := Text(env, p, q);
      assert |text| == 1 ==> text == [text[0]];
    }
  }

  lemma {:induction false} LiteralsCover(env: Env, mods: Modifiers, values: seq<nat>, p: nat, q: nat)
    requires Boundary(env.input, p, env.unicode)
    ensures Stretch(p, q) in TermsLanguage(env, mods, Literals(values)) <==>
      Between(env, p, q) && AllAlike(env, mods.ignoreCase, Text(env, p, q), values)
    decreases |values|
  {
    hide TermLanguage;
    hide Text;
    hide AllAlike;
    hide Literals;
    if values == [] {
      if Between(env, p, q) {
        EmptyText(env, p, q);
        NoneAlike(env, mods.ignoreCase, Text(env, p, q));
      }
    } else {
      var first := TermLanguage(env, mods, Term(Literal(values[0]), None));
      var rest := TermsLanguage(env, mods, Literals(values[1..]));
      LiteralsFirst(env, mods, values);
      if Stretch(p, q) in Then(first, rest) {
        var r: nat :| Stretch(p, r) in first && Stretch(r, q) in rest;
        LiteralCovers(env, mods, values[0], p, r);
        LiteralsCover(env, mods, values[1..], r, q);
        TextJoin(env, p, r, q);
        AlikeLength(env, mods.ignoreCase, Text(env, p, r), [values[0]]);
        AlikeJoin(env, mods.ignoreCase, Text(env, p, r), Text(env, r, q), values);
      }
      if Between(env, p, q) && AllAlike(env, mods.ignoreCase, Text(env, p, q), values) {
        var text := Text(env, p, q);
        AlikeLength(env, mods.ignoreCase, text, values);
        var r := TextFirst(env, p, q, text);
        LiteralCovers(env, mods, values[0], p, r);
        LiteralsCover(env, mods, values[1..], r, q);
        AlikeJoin(env, mods.ignoreCase, [text[0]], text[1..], values);
        assert [text[0]] + text[1..] == text;
      }
    }
  }

  lemma LiteralsFirst(env: Env, mods: Modifiers, values: seq<nat>)
    requires values != []
    ensures TermsLanguage(env, mods, Literals(values)) ==
      Then(TermLanguage(env, mods, Term(Literal(values[0]), None)), TermsLanguage(env, mods, Literals(values[1..])))
  {
    hide Then;
    assert Literals(values)[1..] == Literals(values[1..]);
  }

  lemma NoneAlike(env: Env, ignoreCase: bool, text: seq<nat>)
    ensures AllAlike(env, ignoreCase, text, []) <==> text == []
  {
  }

  lemma AlikeLength(env: Env, ignoreCase: bool, a: seq<nat>, b: seq<nat>)
    requires AllAlike(env, ignoreCase, a, b)
    ensures |a| == |b|
  {
  }

  lemma AlikeJoin(env: Env, ignoreCase: bool, a: seq<nat>, b: seq<nat>, values: seq<nat>)
    requires |a| == 1 && values != []
    ensures AllAlike(env, ignoreCase, a + b, values) <==>
      AllAlike(env, ignoreCase, a, [values[0]]) && AllAlike(env, ignoreCase, b, values[1..])
  {
    hide Alike;
    if AllAlike(env, ignoreCase, a + b, values) {
      forall i | 0 <= i < |b|
        ensures Alike(env, ignoreCase, b[i], values[1..][i])
      {
        assert (a + b)[i + 1] == b[i] && values[i + 1] == values[1..][i];
      }
      assert (a + b)[0] == a[0];
    }
    if AllAlike(env, ignoreCase, a, [values[0]]) && AllAlike(env, ignoreCase, b, values[1..]) {
      forall i | 0 <= i < |a + b|
        ensures Alike(env, ignoreCase, (a + b)[i], values[i])
      {
        if i > 0 {
          assert (a + b)[i] == b[i - 1] && values[i] == values[1..][i - 1];
        }
      }
    }
  }

  /** The first character of a text stands at its start. */
  lemma TextFirst(env: Env, p: nat, q: nat, values: seq<nat>) returns (r: nat)
    requires Between(env, p, q) && Text(env, p, q) == values != []
    ensures Between(env, p, r) && Between(env, r, q)
    ensures Text(env, p, r) == [values[0]] && Text(env, r, q) == values[1..]
  {
    EmptyText(env, p, q);
    ReadWithin(env, p, q);
    ForwardThenBackward(env.input, p, env.unicode);
    var next := ReadCharacter(env.input, p, env.unicode).value;
    r := next.next;
    ReadsText(env, p, r, next.character);
    TextJoin(env, p, r, q);
  }

  lemma LiteralsPlain(values: seq<nat>)
    ensures PlainTerms(Literals(values))
  {
  }

  /** Literal characters are found in reading order, whether the text lies ahead or behind. */
  lemma LiteralsInReadingOrder(env: Env, mods: Modifiers, values: seq<nat>, x: Cursor, q: nat)
    requires Valid(env, x)
    ensures Hits(MatchTerms(env, mods, Literals(values), false, x), q) <==>
      Between(env, x.position, q) && AllAlike(env, mods.ignoreCase, Text(env, x.position, q), values)
    ensures Hits(MatchTerms(env, mods, Literals(values), true, x), q) <==>
      Between(env, q, x.position) && AllAlike(env, mods.ignoreCase, Text(env, q, x.position), values)
  {
    hide MatchTerms;
    hide TermsLanguage;
    hide Text;
    hide AllAlike;
    var terms := Literals(values);
    LiteralsPlain(values);
    TermsMean(env, mods, terms, false, x, q);
    TermsMean(env, mods, terms, true, x, q);
    LiteralsCover(env, mods, values, x.position, q);
    if Boundary(env.input, q, env.unicode) {
      LiteralsCover(env, mods, values, q, x.position);
    }
  }

  /** Without case folding the text is exactly what is written. */
  lemma AlikeIsSame(env: Env, a: seq<nat>, b: seq<nat>)
    ensures AllAlike(env, false, a, b) <==> a == b
  {
  }

  /** A back reference covers the text of its group, read the same way ahead and behind. */
  lemma ReferenceCovers(env: Env, mods: Modifiers, groups: seq<nat>, backward: bool, x: Cursor, q: nat)
    requires Valid(env, x) && Participating(groups, x).Some?
    ensures var (start, end) := Participating(groups, x).value;
            var from, to := if backward then q else x.position, if backward then x.position else q;
            Hits(MatchReference(env, mods, groups, backward, x), q) <==>
            && Between(env, from, to)
            && FoldAll(env, mods.ignoreCase, Text(env, from, to)) == FoldAll(env, mods.ignoreCase, Text(env, start, end))
  {
    hide MatchString;
    hide Text;
    hide FoldAll;
    hide Hits;
    var (start, end) := Participating(groups, x).value;
    StringHits(env, mods.ignoreCase, FoldAll(env, mods.ignoreCase, Text(env, start, end)), backward, x, q);
  }

  // ---- The empty stretch ----

  /** Atoms without assertions, all the way down. */
  predicate Consuming(atom: Atom)
    decreases atom
  {
    match atom
    case Group(_, _, expression) => ConsumingAlternatives(expression.alternatives)
    case _ => IsCharacter(atom)
  }

  predicate ConsumingAlternatives(alternatives: seq<Sequence>)
    decreases alternatives
  {
    forall i :: 0 <= i < |alternatives| ==> ConsumingTerms(alternatives[i].terms)
  }

  predicate ConsumingTerms(terms: seq<Term>)
    decreases terms
  {
    forall i :: 0 <= i < |terms| ==> ConsumingTerm(terms[i])
  }

  predicate ConsumingTerm(term: Term)
    decreases term
  {
    Consuming(term.atom) && (term.quantifier.Some? ==> ValidQuantifier(term.quantifier.value))
  }

  /** What is classified as nullable matches the empty string, in every input and everywhere. */
  lemma {:induction false} NullableIsEmpty(env: Env, mods: Modifiers, atom: Atom, p: nat)
    requires Consuming(atom) && CanMatchEmpty(atom) && Boundary(env.input, p, env.unicode)
    ensures Stretch(p, p) in AtomLanguage(env, mods, atom)
    decreases atom
  {
    hide AlternativesLanguage;
    if atom.Class? {
      assert StringSpan(env, mods.ignoreCase, [], p, p);
    } else {
      NullableAlternatives(env, if atom.modifiers.Some? then atom.modifiers.value else mods, atom.expression.alternatives, p);
    }
  }

  lemma {:induction false} NullableAlternatives(env: Env, mods: Modifiers, alternatives: seq<Sequence>, p: nat)
    requires ConsumingAlternatives(alternatives) && AnyEmpty(alternatives) && Boundary(env.input, p, env.unicode)
    ensures Stretch(p, p) in AlternativesLanguage(env, mods, alternatives)
    decreases alternatives
  {
    hide TermsLanguage;
    if AllEmpty(alternatives[0].terms) {
      NullableTerms(env, mods, alternatives[0].terms, p);
    } else {
      NullableAlternatives(env, mods, alternatives[1..], p);
    }
  }

  lemma {:induction false} NullableTerms(env: Env, mods: Modifiers, terms: seq<Term>, p: nat)
    requires ConsumingTerms(terms) && AllEmpty(terms) && Boundary(env.input, p, env.unicode)
    ensures Stretch(p, p) in TermsLanguage(env, mods, terms)
    decreases terms
  {
    hide TermLanguage;
    if terms != [] {
      NullableTerm(env, mods, terms[0], p);
      NullableTerms(env, mods, terms[1..], p);
    }
  }

  lemma {:induction false} NullableTerm(env: Env, mods: Modifiers, term: Term, p: nat)
    requires ConsumingTerm(term) && TermCanBeEmpty(term) && Boundary(env.input, p, env.unicode)
    ensures Stretch(p, p) in TermLanguage(env, mods, term)
    decreases term
  {
    hide AtomLanguage;
    var language := AtomLanguage(env, mods, term.atom);
    if term.quantifier.None? {
      NullableIsEmpty(env, mods, term.atom, p);
    } else {
      var n := term.quantifier.value.minimum;
      if n > 0 {
        NullableIsEmpty(env, mods, term.atom, p);
      }
      EmptyTimes(language, n, p);
      assert Allowed(term.quantifier.value, n);
      assert SomeTimes(language, term.quantifier.value, Stretch(p, p));
    }
  }

  lemma {:induction false} EmptyTimes(language: Language, n: nat, p: nat)
    requires n > 0 ==> Stretch(p, p) in language
    ensures Stretch(p, p) in Times(language, n)
    decreases n
  {
    if n > 0 {
      EmptyTimes(language, n - 1, p);
    }
  }

  // ---- Preference ----

  /** Farther away in the direction of matching. */
  predicate Farther(backward: bool, p: nat, q: nat) {
    if backward then p < q else q < p
  }

  /** From far to near for greedy repetitions, from near to far for lazy ones. */
  predicate Preferred(ys: seq<Cursor>, greedy: bool, backward: bool) {
    forall i, j :: 0 <= i < j < |ys| ==>
      if greedy then Farther(backward, ys[i].position, ys[j].position) else Farther(backward, ys[j].position, ys[i].position)
  }

  /** Every match is one character. */
  predicate OneCharacter(atom: Atom) {
    IsCharacter(atom) && (atom.Class? ==> atom.class_.strings == [])
  }

  lemma OneMatch(env: Env, mods: Modifiers, atom: Atom, backward: bool, x: Cursor)
    requires Valid(env, x) && OneCharacter(atom)
    ensures var ys := MatchAtom(env, mods, atom, backward, x);
            |ys| <= 1 && (ys != [] ==> Farther(backward, ys[0].position, x.position))
  {
    hide MatchOne;
    if atom.Class? {
      assert LongestFirst([]) == [];
      var one := MatchOne(env, mods, atom, backward, x);
      assert MatchAtom(env, mods, atom, backward, x) == [] + (one + []) == one;
    }
  }

  lemma PrefersOneMore(again: seq<Cursor>, x: Cursor, greedy: bool, backward: bool)
    requires Preferred(again, greedy, backward)
    requires forall i :: 0 <= i < |again| ==> Farther(backward, again[i].position, x.position)
    ensures Preferred(if greedy then again + [x] else [x] + again, greedy, backward)
  {
    hide Farther;
  }

  lemma {:induction false} RepeatPrefers(env: Env, mods: Modifiers, atom: Atom, minimum: nat, maximum: Option<nat>,
                                         greedy: bool, backward: bool, x: Cursor)
    requires Valid(env, x) && OneCharacter(atom)
    ensures Preferred(Repeat(env, mods, atom, minimum, maximum, greedy, backward, x), greedy, backward)
    decreases minimum, Distance(env, backward, x)
  {
    hide MatchAtom;
    hide Preferred;
    NoPreference(x, greedy, backward);
    if maximum != Some(0) {
      var ys := MatchAtom(env, mods, atom, backward, Forget(x, Groups(atom)));
      OneMatch(env, mods, atom, backward, Forget(x, Groups(atom)));
      if ys != [] {
        var less := if minimum > 0 then minimum - 1 else 0;
        RepeatPrefers(env, mods, atom, less, Less(maximum), greedy, backward, ys[0]);
        var again := Repeat(env, mods, atom, less, Less(maximum), greedy, backward, ys[0]);
        assert ys[1..] == [] && again + [] == again;
        assert RepeatAll(env, mods, atom, minimum, maximum, greedy, backward, x, ys) == again;
        assert forall i :: 0 <= i < |again| ==> Moves(env, backward, ys[0], again[i]);
        PrefersOneMore(again, x, greedy, backward);
      } else {
        assert [] + [x] == [x] == [x] + [];
      }
    }
  }

  lemma NoPreference(x: Cursor, greedy: bool, backward: bool)
    ensures Preferred([x], greedy, backward) && Preferred([], greedy, backward)
  {
  }

  /** The match that is tried first is the longest one of a greedy repetition, the shortest one of a lazy one. */
  lemma GreedyIsLongest(env: Env, mods: Modifiers, term: Term, backward: bool, x: Cursor, q: nat)
    requires Valid(env, x) && PlainTerm(term) && OneCharacter(term.atom) && term.quantifier.Some?
    requires Leads(TermLanguage(env, mods, term), backward, x.position, q)
    ensures var ys := MatchTerm(env, mods, term, backward, x);
            && ys != []
            && (q == ys[0].position
                || if term.quantifier.value.greedy then Farther(backward, ys[0].position, q) else Farther(backward, q, ys[0].position))
  {
    hide TermLanguage;
    hide Repeat;
    hide PlainTerm;
    TermMeans(env, mods, term, backward, x, q);
    var Quantifier(minimum, maximum, greedy) := term.quantifier.value;
    RepeatPrefers(env, mods, term.atom, minimum, maximum, greedy, backward, x);
    var i := HitIndex(MatchTerm(env, mods, term, backward, x), q);
  }

  /** From the longest to the shortest, those of one length in the order of words. */
  predicate LongToShort(strings: seq<seq<nat>>) {
    forall i, j :: 0 <= i < j < |strings| ==>
      |strings[i]| > |strings[j]| || (|strings[i]| == |strings[j]| && LexicographicLeq(strings[i], strings[j]))
  }

  /** The order in which the strings of a class are tried. */
  lemma {:induction false} LongestComeFirst(strings: seq<seq<nat>>)
    ensures LongToShort(LongestFirst(strings))
    decreases |strings|
  {
    hide LongToShort;
    if strings == [] {
      NoStrings();
    } else {
      LongestComeFirst(strings[1..]);
      if strings[0] != [] {
        InsertKeepsOrder(strings[0], LongestFirst(strings[1..]));
      }
    }
  }

  lemma NoStrings()
    ensures LongToShort([])
  {
  }

  lemma LongestInFront(s: seq<nat>, strings: seq<seq<nat>>)
    ensures LongToShort([s] + strings) <==> LongToShort(strings) && forall t :: t in strings ==> TriedBefore(s, t)
  {
    hide LexicographicLeq;
    var all := [s] + strings;
    if LongToShort(all) {
      forall i, j | 0 <= i < j < |strings|
        ensures TriedBefore(strings[i], strings[j])
      {
        assert all[i + 1] == strings[i] && all[j + 1] == strings[j];
      }
      forall t | t in strings
        ensures TriedBefore(s, t)
      {
        var k :| 0 <= k < |strings| && strings[k] == t;
        assert all[0] == s && all[k + 1] == t;
      }
    }
    if LongToShort(strings) && forall t :: t in strings ==> TriedBefore(s, t) {
      forall i, j | 0 <= i < j < |all|
        ensures TriedBefore(all[i], all[j])
      {
        assert all[j] == strings[j - 1] && all[j] in strings;
      }
    }
  }

  lemma Inserted(s: seq<nat>, sorted: seq<seq<nat>>, t: seq<nat>)
    ensures t in InsertString(s, sorted) <==> t == s || t in sorted
  {
    assert t in InsertString(s, sorted) <==> t in multiset(InsertString(s, sorted));
  }

  lemma TriedTransitive(a: seq<nat>, b: seq<nat>, c: seq<nat>)
    requires TriedBefore(a, b) && TriedBefore(b, c)
    ensures TriedBefore(a, c)
  {
    if |a| == |c| {
      LeqTransitive(a, b, c);
    }
  }

  lemma {:induction false} InsertKeepsOrder(s: seq<nat>, sorted: seq<seq<nat>>)
    requires LongToShort(sorted)
    ensures LongToShort(InsertString(s, sorted))
    decreases |sorted|
  {
    hide LongToShort;
    hide TriedBefore;
    if sorted == [] {
      NoStrings();
      LongestInFront(s, []);
    } else {
      assert sorted == [sorted[0]] + sorted[1..];
      LongestInFront(sorted[0], sorted[1..]);
      if TriedBefore(s, sorted[0]) {
        forall t | t in sorted
          ensures TriedBefore(s, t)
        {
          if t != sorted[0] {
            TriedTransitive(s, sorted[0], t);
          }
        }
        LongestInFront(s, sorted);
      } else {
        TriedTotal(s, sorted[0]);
        InsertKeepsOrder(s, sorted[1..]);
        var rest := InsertString(s, sorted[1..]);
        forall t | t in rest
          ensures TriedBefore(sorted[0], t)
        {
          Inserted(s, sorted[1..], t);
        }
        LongestInFront(sorted[0], rest);
      }
    }
  }

  lemma TriedTotal(a: seq<nat>, b: seq<nat>)
    ensures TriedBefore(a, b) || TriedBefore(b, a)
  {
    LeqTotal(a, b);
  }

  // ---- Compiled programs ----

  /** A program finds a match at a position exactly when a stretch of the pattern's language starts there. */
  lemma AttemptDecides(m: Machine.Engine, mods: Modifiers, expression: Expression, total: nat, registers: nat,
                       position: nat) returns (c: Machine.Config)
    requires ValidPattern(expression, total) && PlainAlternatives(expression.alternatives)
    requires NoBackwardStringsIn(expression.alternatives, false)
    requires m.program == Code.Program(m.env.canonicalize, mods, expression)
    requires Code.AlternativesRegisters(expression.alternatives) <= registers
    requires Boundary(m.env.input, position, m.env.unicode)
    ensures Runs.Reaches(m, Machine.Start(total, registers, position), c)
    ensures c.Matched? || c.Exhausted?
    ensures c.Matched? ==>
      && c.captures != [] && c.captures[0].Some? && c.captures[0].value.0 == position
      && Stretch(position, c.captures[0].value.1) in AlternativesLanguage(m.env, mods, expression.alternatives)
    ensures c.Exhausted? ==>
      forall q: nat :: Stretch(position, q) !in AlternativesLanguage(m.env, mods, expression.alternatives)
  {
    hide MatchAlternatives;
    hide AlternativesLanguage;
    hide WellFormedAlternatives;
    hide Runs.Reaches;
    AttemptCorrect(m, mods, expression, total, registers, position);
    c := Outcome(m.env, mods, expression, total, position);
    FreshValid(m.env, position, total);
    var x := Fresh(position, total);
    var ys := MatchAlternatives(m.env, mods, expression.alternatives, false, x);
    if ys == [] {
      forall q: nat
        ensures Stretch(position, q) !in AlternativesLanguage(m.env, mods, expression.alternatives)
      {
        AlternativesMean(m.env, mods, expression.alternatives, false, x, q);
      }
    } else {
      HitsAt(ys, 0);
      AlternativesMean(m.env, mods, expression.alternatives, false, x, ys[0].position);
    }
  }
}
