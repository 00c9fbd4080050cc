/** The parsed pattern and the static facts the code generator derives from it. */
module Pattern {
  import opened Basics
  import opened CharacterRanges

  /** The parser clamps every repetition count to this value. */
  const INFINITE_REPETITION: nat := 0x7fff_ffff

  datatype Expression = Expression(alternatives: seq<Sequence>)

  datatype Sequence = Sequence(terms: seq<Term>)

  datatype Term = Term(atom: Atom, quantifier: Option<Quantifier>)

  datatype Quantifier = Quantifier(minimum: nat, maximum: Option<nat>, greedy: bool)

  datatype Modifiers = Modifiers(ignoreCase: bool, multiline: bool, dotAll: bool)

  /** `strings` holds the empty and multi-character members of a Unicode Sets class. */
  datatype CharacterClass = CharacterClass(ranges: seq<CharacterRange>, strings: seq<seq<nat>>, inverted: bool)

  datatype Atom =
    | Literal(value: nat)
    | Dot
    | LineStart
    | LineEnd
    | WordBoundary(inverted: bool)
    | Space(inverted: bool)
    | Class(class_: CharacterClass)
    | BackReference(captures: seq<nat>)
    | LookAround(negative: bool, backward: bool, expression: Expression)
    | Group(capture: Option<nat>, modifiers: Option<Modifiers>, expression: Expression)

  // ---- Nullability ----

  predicate CanMatchEmpty(atom: Atom)
    decreases atom
  {
    match atom
    case LineStart => true
    case LineEnd => true
    case WordBoundary(_) => true
    case BackReference(_) => true
    case LookAround(_, _, _) => true
    case Group(_, _, expression) => AnyEmpty(expression.alternatives)
    case Class(class_) => [] in class_.strings
    case Literal(_) => false
    case Dot => false
    case Space(_) => false
  }

  predicate AnyEmpty(alternatives: seq<Sequence>)
    decreases alternatives
  {
    alternatives != [] && (AllEmpty(alternatives[0].terms) || AnyEmpty(alternatives[1..]))
  }

  predicate AllEmpty(terms: seq<Term>)
    decreases terms
  {
    terms != [] ==> TermCanBeEmpty(terms[0]) && AllEmpty(terms[1..])
  }

  predicate TermCanBeEmpty(term: Term)
    decreases term
  {
    (term.quantifier.Some? && term.quantifier.value.minimum == 0) || CanMatchEmpty(term.atom)
  }

  // ---- Capture groups inside a node ----

  /** The smallest range of group numbers covering every group inside the atom. */
  function CaptureRange(atom: Atom): Option<(nat, nat)>
    decreases atom
  {
    match atom
    case Group(capture, _, expression) =>
      var inner := AlternativesRange(expression.alternatives);
      (match (capture, inner)
       case (Some(c), Some(range)) => Some((c, range.1))
       case (Some(c), None) => Some((c, c))
       case (None, _) => inner)
    case LookAround(_, _, expression) => AlternativesRange(expression.alternatives)
    case _ => None
  }

  /** The fold step of the source: the hull of two optional ranges. */
  function Hull(left: Option<(nat, nat)>, right: Option<(nat, nat)>): Option<(nat, nat)> {
    match (left, right)
    case (None, _) => right
    case (_, None) => left
    case (Some(l), Some(r)) =>
      Some((if l.0 <= r.0 then l.0 else r.0, if l.1 >= r.1 then l.1 else r.1))
  }

  function AlternativesRange(alternatives: seq<Sequence>): Option<(nat, nat)>
    decreases alternatives
  {
    if alternatives == [] then None
    else Hull(TermsRange(alternatives[0].terms), AlternativesRange(alternatives[1..]))
  }

  function TermsRange(terms: seq<Term>): Option<(nat, nat)>
    decreases terms
  {
    if terms == [] then None
    else Hull(TermRange(terms[0]), TermsRange(terms[1..]))
  }

  function TermRange(term: Term): Option<(nat, nat)>
    decreases term
  {
    CaptureRange(term.atom)
  }

  function GroupCount(atom: Atom): nat
    decreases atom
  {
    match atom
    case Group(capture, _, expression) =>
      (if capture.Some? then 1 else 0) + AlternativesGroups(expression.alternatives)
    case LookAround(_, _, expression) => AlternativesGroups(expression.alternatives)
    case _ => 0
  }

  function AlternativesGroups(alternatives: seq<Sequence>): nat
    decreases alternatives
  {
    if alternatives == [] then 0
    else TermsGroups(alternatives[0].terms) + AlternativesGroups(alternatives[1..])
  }

  function TermsGroups(terms: seq<Term>): nat
    decreases terms
  {
    if terms == [] then 0 else TermGroups(terms[0]) + TermsGroups(terms[1..])
  }

  function TermGroups(term: Term): nat
    decreases term
  {
    GroupCount(term.atom)
  }

  // ---- What the parser guarantees about the patterns it returns ----

  predicate ValidQuantifier(q: Quantifier) {
    && q.minimum <= INFINITE_REPETITION
    && (q.maximum.Some? ==> q.minimum <= q.maximum.value <= INFINITE_REPETITION)
  }

  predicate ValidClass(class_: CharacterClass) {
    && Normalized(class_.ranges)
    && (forall i :: 0 <= i < |class_.ranges| ==> class_.ranges[i].end <= MAX_CODE_POINT)
    && (forall s, c :: s in class_.strings && c in s ==> c <= MAX_CODE_POINT)
    && (class_.inverted ==> class_.strings == [])
  }

  /** An atom that is repeated at most zero times: no code is emitted for it. */
  predicate Dropped(term: Term) {
    term.quantifier.Some? && term.quantifier.value.maximum == Some(0)
  }

  /**
   The groups of the node are numbered `first`, `first + 1`, ... in the order of
   their opening parentheses, and literals, quantifiers and classes are well formed.
   If `strict`, references outside dropped atoms stay below `total`.
   */
  predicate WellFormed(atom: Atom, first: nat, total: nat, strict: bool)
    decreases atom
  {
    match atom
    case Literal(value) => value <= MAX_CODE_POINT
    case Class(class_) => ValidClass(class_)
    case BackReference(captures) => captures != [] && (strict ==> Below(captures, total))
    case LookAround(_, _, expression) =>
      expression.alternatives != [] && WellFormedAlternatives(expression.alternatives, first, total, strict)
    case Group(None, _, expression) =>
      expression.alternatives != [] && WellFormedAlternatives(expression.alternatives, first, total, strict)
    case Group(Some(capture), _, expression) =>
      && capture == first < total
      && expression.alternatives != []
      && WellFormedAlternatives(expression.alternatives, first + 1, total, strict)
    case _ => true
  }

  predicate Below(captures: seq<nat>, total: nat) {
    forall i :: 0 <= i < |captures| ==> captures[i] < total
  }

  predicate WellFormedAlternatives(alternatives: seq<Sequence>, first: nat, total: nat, strict: bool)
    decreases alternatives
  {
    alternatives != [] ==>
      && WellFormedTerms(alternatives[0].terms, first, total, strict)
      && WellFormedAlternatives(alternatives[1..], first + TermsGroups(alternatives[0].terms), total, strict)
  }

  predicate WellFormedTerms(terms: seq<Term>, first: nat, total: nat, strict: bool)
    decreases terms
  {
    terms != [] ==>
      && WellFormedTerm(terms[0], first, total, strict)
      && WellFormedTerms(terms[1..], first + TermGroups(terms[0]), total, strict)
  }

  predicate WellFormedTerm(term: Term, first: nat, total: nat, strict: bool)
    decreases term
  {
    && WellFormed(term.atom, first, total, strict && !Dropped(term))
    && (term.quantifier.Some? ==> ValidQuantifier(term.quantifier.value))
  }

  // ---- References ----

  /** The references inside the atom, each as the list of captures it names. */
  function References(atom: Atom): set<seq<nat>>
    decreases atom
  {
    match atom
    case BackReference(captures) => {captures}
    case LookAround(_, _, expression) => AlternativesReferences(expression.alternatives)
    case Group(_, _, expression) => AlternativesReferences(expression.alternatives)
    case _ => {}
  }

  function AlternativesReferences(alternatives: seq<Sequence>): set<seq<nat>>
    decreases alternatives
  {
    if alternatives == [] then {}
    else TermsReferences(alternatives[0].terms) + AlternativesReferences(alternatives[1..])
  }

  function TermsReferences(terms: seq<Term>): set<seq<nat>>
    decreases terms
  {
    if terms == [] then {} else TermReferences(terms[0]) + TermsReferences(terms[1..])
  }

  function TermReferences(term: Term): set<seq<nat>>
    decreases term
  {
    References(term.atom)
  }

  // ---- String-valued classes inside lookbehinds ----

  /** No class that is matched backward has string members, except in dropped atoms. */
  predicate NoBackwardStrings(atom: Atom, backward: bool)
    decreases atom
  {
    match atom
    case Class(class_) => backward ==> class_.strings == []
    case LookAround(_, inner, expression) => NoBackwardStringsIn(expression.alternatives, inner)
    case Group(_, _, expression) => NoBackwardStringsIn(expression.alternatives, backward)
    case _ => true
  }

  predicate NoBackwardStringsIn(alternatives: seq<Sequence>, backward: bool)
    decreases alternatives
  {
    alternatives != [] ==>
      && NoBackwardStringsInTerms(alternatives[0].terms, backward)
      && NoBackwardStringsIn(alternatives[1..], backward)
  }

  predicate NoBackwardStringsInTerms(terms: seq<Term>, backward: bool)
    decreases terms
  {
    terms != [] ==>
      NoBackwardStringsInTerm(terms[0], backward) && NoBackwardStringsInTerms(terms[1..], backward)
  }

  predicate NoBackwardStringsInTerm(term: Term, backward: bool)
    decreases term
  {
    Dropped(term) || NoBackwardStrings(term.atom, backward)
  }

  // ---- The direction of matching ----

  /** The term matched first, and the terms after it, in the direction of matching. */
  function First(terms: seq<Term>, backward: bool): Term
    requires terms != []
  {
    if backward then terms[|terms| - 1] else terms[0]
  }

  function Rest(terms: seq<Term>, backward: bool): (r: seq<Term>)
    requires terms != []
    ensures |r| == |terms| - 1
  {
    if backward then terms[..|terms| - 1] else terms[1..]
  }

  /** The number of the first group inside the first term, and inside the rest. */
  function FirstGroup(terms: seq<Term>, backward: bool, first: nat): nat
    requires terms != []
  {
    if backward then first + TermsGroups(Rest(terms, true)) else first
  }

  function RestGroup(terms: seq<Term>, backward: bool, first: nat): nat
    requires terms != []
  {
    if backward then first else first + TermGroups(First(terms, false))
  }

  lemma {:induction false} WellFormedFirstRest(terms: seq<Term>, backward: bool, first: nat, total: nat, strict: bool)
    requires terms != []
    ensures WellFormedTerms(terms, first, total, strict) <==>
      && WellFormedTerm(First(terms, backward), FirstGroup(terms, backward, first), total, strict)
      && WellFormedTerms(Rest(terms, backward), RestGroup(terms, backward, first), total, strict)
    ensures TermsGroups(terms) == TermGroups(First(terms, backward)) + TermsGroups(Rest(terms, backward))
    decreases |terms|
  {
    if backward && |terms| > 1 {
      WellFormedFirstRest(terms[1..], true, first + TermGroups(terms[0]), total, strict);
      assert terms[1..][..|terms| - 2] == terms[..|terms| - 1][1..];
    }
  }

  // ---- The order in which the strings of a class are tried ----

  predicate LexicographicLeq(a: seq<nat>, b: seq<nat>) {
    a == [] || (b != [] && (a[0] < b[0] || (a[0] == b[0] && LexicographicLeq(a[1..], b[1..]))))
  }

  lemma {:induction false} LeqTransitive(a: seq<nat>, b: seq<nat>, c: seq<nat>)
    requires LexicographicLeq(a, b) && LexicographicLeq(b, c)
    ensures LexicographicLeq(a, c)
    decreases |a|
  {
    if a != [] && a[0] == b[0] == c[0] {
      LeqTransitive(a[1..], b[1..], c[1..]);
    }
  }

  lemma {:induction false} LeqTotal(a: seq<nat>, b: seq<nat>)
    ensures LexicographicLeq(a, b) || LexicographicLeq(b, a)
    ensures LexicographicLeq(a, b) && LexicographicLeq(b, a) ==> a == b
    decreases |a|
  {
    if a != [] && b != [] && a[0] == b[0] {
      LeqTotal(a[1..], b[1..]);
      assert a == [a[0]] + a[1..] && b == [b[0]] + b[1..];
    }
  }

  /** The first difference, where the first word has the smaller letter. */
  predicate DiffersAt(a: seq<nat>, b: seq<nat>, i: nat) {
    i < |a| && i < |b| && a[..i] == b[..i] && a[i] < b[i]
  }

  lemma DiffersLater(a: seq<nat>, b: seq<nat>, i: nat)
    requires a != [] && b != []
    ensures DiffersAt(a, b, 0) <==> a[0] < b[0]
    ensures i > 0 ==> (DiffersAt(a, b, i) <==> a[0] == b[0] && DiffersAt(a[1..], b[1..], i - 1))
  {
    if 0 < i < |a| && i < |b| {
      assert a[..i] == [a[0]] + a[1..][..i - 1] && b[..i] == [b[0]] + b[1..][..i - 1];
      assert a[..i] == b[..i] ==> a[..i][0] == b[..i][0] && a[..i][1..] == b[..i][1..];
    }
  }

  /** The order of words: the shorter one first if the other continues it, otherwise by the first difference. */
  lemma {:induction false} LeqIsOrderOfWords(a: seq<nat>, b: seq<nat>)
    ensures LexicographicLeq(a, b) <==> a <= b || exists i: nat :: DiffersAt(a, b, i)
    decreases |a|
  {
    hide DiffersAt;
    if a != [] && b != [] {
      LeqIsOrderOfWords(a[1..], b[1..]);
      assert a <= b <==> a[0] == b[0] && a[1..] <= b[1..] by {
        assert a == [a[0]] + a[1..] && b == [b[0]] + b[1..];
      }
      DiffersLater(a, b, 0);
      if i: nat :| DiffersAt(a, b, i) {
        DiffersLater(a, b, i);
      }
      if i: nat :| DiffersAt(a[1..], b[1..], i) {
        DiffersLater(a, b, i + 1);
      }
    } else {
      NoDifference(a, b);
    }
  }

  lemma NoDifference(a: seq<nat>, b: seq<nat>)
    requires a == [] || b == []
    ensures forall i: nat :: !DiffersAt(a, b, i)
  {
  }

  /** Longer strings first; strings of one length in lexicographic order. */
  predicate TriedBefore(a: seq<nat>, b: seq<nat>) {
    |a| > |b| || (|a| == |b| && LexicographicLeq(a, b))
  }

  function InsertString(s: seq<nat>, sorted: seq<seq<nat>>): (r: seq<seq<nat>>)
    ensures multiset(r) == multiset([s]) + multiset(sorted)
  {
    if sorted == [] || TriedBefore(s, sorted[0]) then [s] + sorted
    else
      var rest := InsertString(s, sorted[1..]);
      assert sorted == [sorted[0]] + sorted[1..];
      [sorted[0]] + rest
  }

  /** The non-empty strings of a class, in the order the compiled code tries them. */
  function LongestFirst(strings: seq<seq<nat>>): (r: seq<seq<nat>>)
    ensures forall s :: s in r <==> s in strings && s != []
  {
    if strings == [] then []
    else
      var rest := LongestFirst(strings[1..]);
      if strings[0] == [] then rest
      else
        var r := InsertString(strings[0], rest);
        assert forall s :: s in r <==> s in multiset(r);
        assert forall s :: s in rest <==> s in multiset(rest);
        r
  }
}
