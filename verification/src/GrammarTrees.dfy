/** The parser accepts exactly the texts that the grammar lays out, and its tree is the one that is laid out. */
module GrammarTrees {
  import opened Basics
  import opened Prepass
  import opened ClassContents
  import opened Syntax
  import opened Trees
  import opened GrammarCharacters
  import opened GrammarSets
  import opened GrammarClasses
  import opened GrammarNotation
  import opened GrammarGroups
  import G = Grammar
  import P = Pattern

  /** The parser moves over the atom and finds it. */
  ghost predicate Reads(x: Context, m: P.Modifiers, s: State, depth: nat, layout: G.Layout) {
    var r := Atom(x, m, s, depth);
    && r.Some? && r.value.0.position == layout.end && MarksOf(r.value.0) == G.AfterAtom(layout, MarksOf(s))
    && r.value.1 == G.Repeats(x, layout) && AtomTree(x, m, s, depth) == G.AtomOf(layout)
  }

  // ---- Leaves ----

  lemma LiteralStarts(x: Context, p: nat, q: nat, c: nat)
    requires G.Literal(x, p, q, c)
    ensures At(x, p) !in {-1, 0x2a, 0x2b, 0x3f, 0x7c, OPEN, CLOSE, OPEN_CLASS, 0x2e, 0x5e, 0x24}
    ensures At(x, p) == BACKSLASH ==> At(x, p + 1) != 0x6b
    ensures At(x, p) == 0x7b ==> !x.unicode && !BraceQuantifier(x, p)
  {
    hide G.Escapes;
    hide BraceQuantifier;
    GlyphIs(x, p);
    IsBracesIs(x, p);
    if At(x, p) == BACKSLASH && At(x, p + 1) == 0x6b {
      EscapesRest(x, p + 1, q, false, c);
    }
  }

  lemma LiteralRead(x: Context, m: P.Modifiers, s: State, depth: nat, q: nat, c: nat)
    requires G.Literal(x, s.position, q, c)
    ensures Reads(x, m, s, depth, G.LeafAt(P.Literal(c), q))
  {
    hide G.Literal;
    hide Atom;
    hide AtomTree;
    LiteralStarts(x, s.position, q, c);
    LiteralIs(x, m, s, depth, q, c);
  }

  /** What the parser does behind a backslash, by the letter. */
  lemma LettersRead(x: Context, m: P.Modifiers, s: State, depth: nat)
    requires At(x, s.position) == BACKSLASH
    ensures Atom(x, m, s, depth) == Escape(x, m, s, s.position + 1)
    ensures Atom(x, m, s, depth).Some? ==> AtomTree(x, m, s, depth) == EscapeTree(x, m, s, s.position + 1)
  {
    hide Escape;
    hide EscapeTree;
    hide Group;
    hide CharacterClass;
  }

  lemma KindLeafRead(x: Context, m: P.Modifiers, s: State, depth: nat, class_: P.CharacterClass)
    requires var p := s.position;
             G.LeafLaid(x, m, P.Class(class_), p, p + 2, MarksOf(s))
    ensures Reads(x, m, s, depth, G.LeafAt(P.Class(class_), s.position + 2))
  {
    hide G.Holds;
    hide Atom;
    hide AtomTree;
    hide Contain;
    hide ClassOf;
    var p := s.position;
    GlyphIs(x, p);
    GlyphIs(x, p + 1);
    LettersRead(x, m, s, depth);
    var letter := G.Glyph(x, p + 1);
    KindIs(letter);
    FoldedIs(x, m.ignoreCase, G.Kind(letter));
    var held := G.Folded(x, m.ignoreCase, G.Kind(letter));
    PlainContains(held);
    ClassIs(Plain(held), G.Singles(held), class_);
  }

  lemma ReferenceLeafRead(x: Context, m: P.Modifiers, s: State, depth: nat, captures: seq<nat>, q: nat)
    requires G.LeafLaid(x, m, P.BackReference(captures), s.position, q, MarksOf(s))
    ensures Reads(x, m, s, depth, G.LeafAt(P.BackReference(captures), q))
  {
    hide Atom;
    hide AtomTree;
    hide DecimalReference;
    hide DigitsEnd;
    hide G.Numeral;
    GlyphIs(x, s.position);
    GlyphIs(x, s.position + 1);
    LettersRead(x, m, s, depth);
    assert G.IsReference(x, s.position + 1);
    ReferenceIs(x, s.position + 1);
  }

  /** Anchors, the dot, word boundaries, white space, and the letter k. */
  lemma MarkLeafRead(x: Context, m: P.Modifiers, s: State, depth: nat, atom: P.Atom, q: nat)
    requires G.LeafLaid(x, m, atom, s.position, q, MarksOf(s)) && !atom.Class? && !atom.BackReference?
    requires atom.Literal? ==> !G.Literal(x, s.position, q, atom.value)
    ensures Reads(x, m, s, depth, G.LeafAt(atom, q))
  {
    hide G.Literal;
    hide G.IsNamedReference;
    hide GroupName;
    hide NameFrom;
    hide References;
    hide Group;
    hide GroupTree;
    hide CharacterClass;
    hide ClassOf;
    GlyphIs(x, s.position);
    GlyphIs(x, s.position + 1);
    if atom.Literal? {
      IsNamedReferenceIs(x, s, s.position + 2);
    }
  }

  lemma LeafRead(x: Context, m: P.Modifiers, s: State, depth: nat, atom: P.Atom, q: nat)
    requires G.LeafLaid(x, m, atom, s.position, q, MarksOf(s))
    ensures Reads(x, m, s, depth, G.LeafAt(atom, q))
  {
    hide Reads;
    hide G.Literal;
    if atom.Literal? && G.Literal(x, s.position, q, atom.value) {
      LiteralRead(x, m, s, depth, q, atom.value);
    } else if atom.Class? {
      KindLeafRead(x, m, s, depth, atom.class_);
    } else if atom.BackReference? {
      ReferenceLeafRead(x, m, s, depth, atom.captures, q);
    } else {
      MarkLeafRead(x, m, s, depth, atom, q);
    }
  }

  lemma NamedRead(x: Context, m: P.Modifiers, s: State, depth: nat, layout: G.Layout)
    requires layout.ReferenceAt? && G.AtomLaid(x, m, layout, s.position, MarksOf(s), depth)
    ensures Reads(x, m, s, depth, layout)
  {
    hide Atom;
    hide AtomTree;
    hide NamedReference;
    hide NamedTree;
    hide G.NamedReference;
    hide G.CapturesNamed;
    GlyphIs(x, s.position);
    GlyphIs(x, s.position + 1);
    LettersRead(x, m, s, depth);
    NamedReferenceRead(x, s, layout.spelt, s.position + 2, layout.end);
  }

  lemma PropertyLeafRead(x: Context, m: P.Modifiers, s: State, depth: nat, layout: G.Layout)
    requires layout.PropertyAt? && G.AtomLaid(x, m, layout, s.position, MarksOf(s), depth)
    ensures Reads(x, m, s, depth, layout)
  {
    hide Atom;
    hide AtomTree;
    hide PropertyEscape;
    hide G.Property;
    hide G.Holds;
    hide Contain;
    hide ClassOf;
    GlyphIs(x, s.position);
    PropertyStarts(x, m.ignoreCase, s.position + 1, layout.middle, layout.end, layout.texts);
    LettersRead(x, m, s, depth);
    PropertyIs(x, m.ignoreCase, s.position + 1, layout.middle, layout.end, layout.texts);
    var set_ := PropertyEscape(x, m.ignoreCase, At(x, s.position + 1) == 0x50, s.position + 2).value.1;
    ClassIs(set_, layout.texts, layout.class_);
  }

  /** A class of either notation. */
  lemma BracketRead(x: Context, m: P.Modifiers, s: State, depth: nat, layout: G.Layout)
    requires (layout.ClassAt? || layout.SetAt?) && G.AtomLaid(x, m, layout, s.position, MarksOf(s), depth)
    ensures Reads(x, m, s, depth, layout)
  {
    hide G.ClassLaid;
    hide G.SetLaid;
    hide G.SetTexts;
    hide SetClass;
    hide ClassItems;
    hide G.Holds;
    hide Contain;
    hide ClassOf;
    hide Group;
    hide GroupTree;
    hide Escape;
    hide EscapeTree;
    var p := s.position;
    GlyphIs(x, p);
    if layout.ClassAt? {
      ClassRead(x, m.ignoreCase, layout.class_, layout.parts, p, layout.end, depth);
    } else {
      SetRead(x, m.ignoreCase, layout.set_, p + 1, depth);
      ClassIs(SetClass(x, m.ignoreCase, p + 1, depth).value.1, G.SetTexts(x, m.ignoreCase, layout.set_), layout.class_);
    }
  }

  // ---- Whole trees ----

  /** What an atom begins with. */
  lemma LayoutStarts(x: Context, m: P.Modifiers, layout: G.Layout, p: nat, k: G.Marks, depth: nat)
    requires G.AtomLaid(x, m, layout, p, k, depth)
    ensures At(x, p) !in {-1, 0x2a, 0x2b, 0x3f, 0x7c, CLOSE} && (!x.unicode ==> !BraceQuantifier(x, p)) && p < |x.units|
  {
    hide G.Literal;
    hide G.Property;
    hide G.SetLaid;
    hide G.NamedReference;
    hide G.HeadLaid;
    hide G.LinesLaid;
    hide G.Holds;
    hide BraceQuantifier;
    GlyphIs(x, p);
    NoBrace(x, p);
    if layout.LeafAt? && layout.atom.Literal? && G.Literal(x, p, layout.end, layout.atom.value) {
      LiteralStarts(x, p, layout.end, layout.atom.value);
    }
  }

  lemma {:induction false} LayoutRead(x: Context, m: P.Modifiers, s: State, depth: nat, layout: G.Layout)
    requires G.AtomLaid(x, m, layout, s.position, MarksOf(s), depth)
    ensures Reads(x, m, s, depth, layout)
    decreases layout, 0
  {
    hide Reads;
    hide G.LeafLaid;
    match layout
    case LeafAt(atom, end) => LeafRead(x, m, s, depth, atom, end);
    case ReferenceAt(_, _, _) => NamedRead(x, m, s, depth, layout);
    case PropertyAt(_, _, _, _) => PropertyLeafRead(x, m, s, depth, layout);
    case GroupAt(_, _, _, _) => GroupRead(x, m, s, depth, layout);
    case _ => BracketRead(x, m, s, depth, layout);
  }

  lemma {:induction false} GroupRead(x: Context, m: P.Modifiers, s: State, depth: nat, layout: G.Layout)
    requires layout.GroupAt? && G.AtomLaid(x, m, layout, s.position, MarksOf(s), depth)
    ensures Reads(x, m, s, depth, layout)
    decreases layout.lines, 1
  {
    hide GroupHead;
    hide Inner;
    hide Enclosed;
    hide QuantifiableGroup;
    hide Disjunction;
    hide DisjunctionTree;
    hide G.HeadLaid;
    hide G.LinesLaid;
    hide G.Around;
    hide G.Entered;
    hide CharacterClass;
    hide Escape;
    hide EscapeTree;
    hide ClassOf;
    var p := s.position;
    GlyphIs(x, p);
    HeadRead(x, m, s, layout.head, p + 1, layout.start);
    var inside := GroupHead(x, s, p + 1).value;
    LinesRead(x, G.Inside(m, layout.head), inside, true, depth + 1, layout.lines);
    var after := Disjunction(x, Inner(x, m, p + 1), inside, true, depth + 1).value;
    GlyphIs(x, after.position);
    assert Group(x, m, s, p + 1, depth) == Some(after.(position := after.position + 1));
    assert GroupTree(x, m, s, p + 1, depth) == G.AtomOf(layout);
  }

  ghost predicate ReadsLines(x: Context, m: P.Modifiers, s: State, inGroup: bool, depth: nat, lines: seq<G.Line>) {
    var r := Disjunction(x, m, s, inGroup, depth);
    && r.Some? && r.value.position == G.EndOfLines(lines) && MarksOf(r.value) == G.AfterLines(lines, MarksOf(s))
    && DisjunctionTree(x, m, s, inGroup, depth) == G.LinesOf(lines)
  }

  lemma {:induction false} LinesRead(x: Context, m: P.Modifiers, s: State, inGroup: bool, depth: nat, lines: seq<G.Line>)
    requires G.LinesLaid(x, m, lines, s.position, MarksOf(s), inGroup, depth)
    ensures ReadsLines(x, m, s, inGroup, depth, lines)
    decreases lines, 0
  {
    hide Sequence;
    hide SequenceTree;
    hide G.TermsLaid;
    var end := lines[0].end;
    GlyphIs(x, end);
    TermsRead(x, m, s, inGroup, depth, lines[0].terms, end);
    if |lines| == 1 {
      assert G.LinesOf(lines[1..]) == [];
    } else {
      var next := NextAlternative(Sequence(x, m, s, inGroup, depth).value);
      LinesRead(x, m, next, inGroup, depth, lines[1..]);
    }
  }

  ghost predicate ReadsTerms(x: Context, m: P.Modifiers, s: State, inGroup: bool, depth: nat, terms: seq<G.TermAt>, q: nat) {
    var r := Sequence(x, m, s, inGroup, depth);
    && r.Some? && r.value.position == q && MarksOf(r.value) == G.AfterTerms(terms, MarksOf(s))
    && SequenceTree(x, m, s, inGroup, depth) == G.TermsOf(terms)
  }

  predicate Ends(x: Context, p: nat, inGroup: bool) {
    At(x, p) == -1 || At(x, p) == 0x7c || (inGroup && At(x, p) == CLOSE)
  }

  lemma {:induction false} TermsRead(x: Context, m: P.Modifiers, s: State, inGroup: bool, depth: nat, terms: seq<G.TermAt>, q: nat)
    requires G.TermsLaid(x, m, terms, s.position, q, MarksOf(s), depth) && Ends(x, q, inGroup)
    ensures ReadsTerms(x, m, s, inGroup, depth, terms, q)
    decreases terms, 0
  {
    hide Atom;
    hide AtomTree;
    hide Quantifier;
    hide BraceQuantifier;
    hide G.AtomLaid;
    hide G.Quantifier;
    hide G.NoQuantifier;
    if terms != [] {
      var term := terms[0];
      TermRead(x, m, s, depth, term);
      LayoutStarts(x, m, term.layout, s.position, MarksOf(s), depth);
      var after := Atom(x, m, s, depth).value.0;
      var next := Quantified(s, after, term.end, term.quantifier);
      assert term.quantifier.None? ==> next == after;
      TermsRead(x, m, next, inGroup, depth, terms[1..], q);
      assert Sequence(x, m, s, inGroup, depth) == Sequence(x, m, next, inGroup, depth);
      assert SequenceTree(x, m, s, inGroup, depth) == [G.TermOf(term)] + SequenceTree(x, m, next, inGroup, depth);
    }
  }

  /** An atom and its quantifier. */
  lemma {:induction false} TermRead(x: Context, m: P.Modifiers, s: State, depth: nat, term: G.TermAt)
    requires G.TermLaid(x, m, term, s.position, MarksOf(s), depth)
    ensures Reads(x, m, s, depth, term.layout)
    ensures Quantifier(x, term.layout.end) == Some((term.end, term.quantifier))
    ensures term.quantifier.Some? ==> G.Repeats(x, term.layout)
    decreases term, 0
  {
    hide Reads;
    hide Quantifier;
    hide G.AtomLaid;
    hide G.Quantifier;
    hide G.NoQuantifier;
    LayoutRead(x, m, s, depth, term.layout);
    if term.quantifier.Some? {
      QuantifierRead(x, term.layout.end, term.comma, term.end, term.quantifier.value);
    } else {
      QuantifierExact(x, term.end);
    }
  }

  /** A text that is laid out is accepted, and the tree of the parser is the one that is laid out. */
  lemma PatternRead(x: Context, m: P.Modifiers, lines: seq<G.Line>)
    requires G.PatternLaid(x, m, lines)
    ensures Parse(x, m).Some? && Tree(x, m) == P.Expression(G.LinesOf(lines))
    ensures MarksOf(Parse(x, m).value) == G.AfterLines(lines, G.Marks(1, [], 0))
  {
    hide G.LinesLaid;
    hide Disjunction;
    hide DisjunctionTree;
    LinesRead(x, m, START, false, 0, lines);
    LinesEnd(x, m, lines, 0, MarksOf(START), 0);
  }

  lemma {:induction false} LinesEnd(x: Context, m: P.Modifiers, lines: seq<G.Line>, p: nat, k: G.Marks, depth: nat)
    requires G.LinesLaid(x, m, lines, p, k, false, depth)
    ensures G.EndOfLines(lines) == |x.units|
    decreases |lines|
  {
    hide G.TermsLaid;
    hide G.AfterTerms;
    if |lines| > 1 {
      LinesEnd(x, m, lines[1..], lines[0].end + 1, G.NextLine(G.AfterTerms(lines[0].terms, k)), depth);
    }
  }

  // ---- And every pattern the parser accepts is laid out ----

  /** Where the parser looks for an atom. */
  predicate Begins(x: Context, p: nat) {
    At(x, p) !in {0x2a, 0x2b, 0x3f, 0x7c} && (!x.unicode ==> !BraceQuantifier(x, p))
  }

  /** An escape that stands for one character. */
  lemma EscapedFound(x: Context, m: P.Modifiers, s: State, p: nat) returns (layout: G.Layout)
    requires At(x, p) == BACKSLASH && Escape(x, m, s, p + 1).Some? && At(x, p + 1) != 0x6b
    requires EscapeTree(x, m, s, p + 1).Literal?
    requires var r := Escape(x, m, s, p + 1).value; r == (s.(position := r.0.position), true)
    ensures G.AtomLaid(x, m, layout, p, MarksOf(s), 0) && layout.LeafAt?
  {
    hide Escape;
    hide EscapeTree;
    hide G.Escapes;
    var q, c := Escape(x, m, s, p + 1).value.0.position, EscapeTree(x, m, s, p + 1).value;
    GlyphIs(x, p);
    EscapeIs(x, m, s, p + 1, q, c);
    layout := G.LeafAt(P.Literal(c), q);
  }

  lemma KindFound(x: Context, m: P.Modifiers, p: nat, k: G.Marks) returns (layout: G.Layout)
    requires At(x, p) == BACKSLASH && At(x, p + 1) in {0x64, 0x44, 0x77, 0x57}
    ensures G.AtomLaid(x, m, layout, p, k, 0) && layout.LeafAt?
  {
    hide G.Holds;
    hide Contain;
    GlyphIs(x, p);
    GlyphIs(x, p + 1);
    var letter := G.Glyph(x, p + 1);
    var held := G.Folded(x, m.ignoreCase, G.Kind(letter));
    PlainContains(held);
    HeldByClass(Plain(held), G.Singles(held), G.IsUpper(letter));
    layout := G.LeafAt(P.Class(ClassOf(Plain(held), G.IsUpper(letter))), p + 2);
  }

  lemma PropertyLeafFound(x: Context, m: P.Modifiers, p: nat, k: G.Marks) returns (layout: G.Layout)
    requires x.unicode && At(x, p) == BACKSLASH && At(x, p + 1) in {0x70, 0x50}
    requires PropertyEscape(x, m.ignoreCase, At(x, p + 1) == 0x50, p + 2).Some?
    ensures G.AtomLaid(x, m, layout, p, k, 0) && layout.PropertyAt?
  {
    hide G.Holds;
    hide Contain;
    hide G.Property;
    hide PropertyEscape;
    hide WordEnd;
    GlyphIs(x, p);
    var (q, set_) := PropertyEscape(x, m.ignoreCase, At(x, p + 1) == 0x50, p + 2).value;
    PropertyAscends(x, m.ignoreCase, At(x, p + 1) == 0x50, p + 2);
    HeldByClass(set_, All(set_), false);
    layout := G.PropertyAt(ClassOf(set_, false), All(set_), WordEnd(x, p + 3), q);
    PropertyIs(x, m.ignoreCase, p + 1, layout.middle, q, layout.texts);
  }

  lemma NamedFound(x: Context, m: P.Modifiers, s: State, p: nat) returns (layout: G.Layout)
    requires At(x, p) == BACKSLASH && At(x, p + 1) == 0x6b && NamedReference(x, s, p + 2).Some?
    ensures G.AtomLaid(x, m, layout, p, MarksOf(s), 0) && (layout.ReferenceAt? || layout.LeafAt?)
  {
    hide GroupName;
    hide NameFrom;
    hide Matching;
    hide Resolve;
    hide G.NameLaid;
    hide G.IsNamedReference;
    hide G.Literal;
    GlyphIs(x, p);
    GlyphIs(x, p + 1);
    GlyphIs(x, p + 2);
    IsNamedReferenceIs(x, s, p + 2);
    if G.IsNamedReference(x, p + 2, MarksOf(s)) {
      var q := GroupName(x, p + 3, 0).value;
      var spelt := NameFound(x, p + 3, 0);
      NameRead(x, spelt, p + 3, q, 0);
      layout := G.ReferenceAt(G.CapturesNamed(x, MarksOf(s), G.NameOf(spelt)), spelt, q);
    } else {
      layout := G.LeafAt(P.Literal(0x6b), p + 2);
    }
  }

  lemma NumberFound(x: Context, m: P.Modifiers, p: nat, k: G.Marks) returns (layout: G.Layout)
    requires At(x, p) == BACKSLASH && 0x31 <= At(x, p + 1) <= 0x39 && G.IsReference(x, p + 1)
    ensures G.AtomLaid(x, m, layout, p, k, 0) && layout.LeafAt?
  {
    GlyphIs(x, p);
    ReferenceIs(x, p + 1);
    var q := DigitsEnd(x, p + 2);
    layout := G.LeafAt(P.BackReference([G.Numeral(x, p + 1, q, 10)]), q);
  }

  /** What an escape may be. */
  lemma EscapeKinds(x: Context, m: P.Modifiers, s: State, p: nat)
    requires Escape(x, m, s, p).Some?
    ensures var e := At(x, p);
      || e in {0x62, 0x42, 0x64, 0x44, 0x73, 0x53, 0x77, 0x57}
      || (e in {0x70, 0x50} && x.unicode && PropertyEscape(x, m.ignoreCase, e == 0x50, p + 1).Some?)
      || (e == 0x6b && NamedReference(x, s, p + 1).Some?)
      || (0x31 <= e <= 0x39 && G.IsReference(x, p))
      || (&& e != 0x6b && !(e in {0x70, 0x50} && x.unicode) && EscapeTree(x, m, s, p).Literal?
          && Escape(x, m, s, p).value == (s.(position := Escape(x, m, s, p).value.0.position), true))
  {
    hide UnicodeEscape;
    hide UnicodeEscapeValue;
    hide PropertyEscape;
    hide NamedReference;
    hide LegacyOctal;
    hide LegacyOctalValue;
    hide HexEscape;
    hide HexEscapeValue;
    hide ControlEscape;
    hide ControlEscapeValue;
    hide DecimalReference;
    hide DigitsEnd;
    hide ClassOf;
    hide G.IsReference;
    if 0x31 <= At(x, p) <= 0x39 {
      ReferenceIs(x, p);
    }
  }

  lemma EscapeFound(x: Context, m: P.Modifiers, s: State, p: nat) returns (layout: G.Layout)
    requires At(x, p) == BACKSLASH && Escape(x, m, s, p + 1).Some?
    ensures G.AtomLaid(x, m, layout, p, MarksOf(s), 0) && (layout.LeafAt? || layout.ReferenceAt? || layout.PropertyAt?)
  {
    hide Escape;
    hide EscapeTree;
    hide NamedReference;
    hide PropertyEscape;
    hide G.IsReference;
    hide G.Literal;
    EscapeKinds(x, m, s, p + 1);
    GlyphIs(x, p);
    GlyphIs(x, p + 1);
    var e := At(x, p + 1);
    if e in {0x62, 0x42} {
      layout := G.LeafAt(P.WordBoundary(e == 0x42), p + 2);
    } else if e in {0x73, 0x53} {
      layout := G.LeafAt(P.Space(e == 0x53), p + 2);
    } else if e in {0x64, 0x44, 0x77, 0x57} {
      layout := KindFound(x, m, p, MarksOf(s));
    } else if e in {0x70, 0x50} && x.unicode {
      layout := PropertyLeafFound(x, m, p, MarksOf(s));
    } else if e == 0x6b {
      layout := NamedFound(x, m, s, p);
    } else if 0x31 <= e <= 0x39 && G.IsReference(x, p + 1) {
      layout := NumberFound(x, m, p, MarksOf(s));
    } else {
      layout := EscapedFound(x, m, s, p);
    }
  }

  /** A leaf or a class, as the parser finds it. */
  lemma SimpleFound(x: Context, m: P.Modifiers, s: State, depth: nat) returns (layout: G.Layout)
    requires (x.sets ==> x.unicode) && Begins(x, s.position) && Atom(x, m, s, depth).Some? && At(x, s.position) != OPEN
    ensures G.AtomLaid(x, m, layout, s.position, MarksOf(s), depth) && !layout.GroupAt?
  {
    hide Escape;
    hide EscapeTree;
    hide CharacterClass;
    hide Group;
    hide GroupTree;
    hide ClassOf;
    hide G.Literal;
    hide BraceQuantifier;
    var p, unit := s.position, At(x, s.position);
    GlyphIs(x, p);
    if unit == 0x2e {
      layout := G.LeafAt(P.Dot, p + 1);
    } else if unit == 0x5e {
      layout := G.LeafAt(P.LineStart, p + 1);
    } else if unit == 0x24 {
      layout := G.LeafAt(P.LineEnd, p + 1);
    } else if unit == OPEN_CLASS {
      layout := BracketFound(x, m, p, depth, MarksOf(s));
    } else if unit == BACKSLASH {
      layout := EscapeFound(x, m, s, p);
    } else {
      var q, c := FinishCodePoint(x, unit, p + 1), FinishedValue(x, unit, p + 1);
      layout := G.LeafAt(P.Literal(c), q);
      LiteralIs(x, m, s, depth, q, c);
    }
  }

  lemma BracketFound(x: Context, m: P.Modifiers, p: nat, depth: nat, k: G.Marks) returns (layout: G.Layout)
    requires (x.sets ==> x.unicode) && At(x, p) == OPEN_CLASS && CharacterClass(x, m.ignoreCase, p + 1, depth).Some?
    ensures G.AtomLaid(x, m, layout, p, k, depth) && (layout.ClassAt? || layout.SetAt?)
  {
    hide G.ClassLaid;
    hide G.SetLaid;
    hide G.SetTexts;
    hide SetClass;
    hide ClassItems;
    hide G.Holds;
    hide Contain;
    var (q, set_) := CharacterClass(x, m.ignoreCase, p + 1, depth).value;
    GlyphIs(x, p);
    if x.sets {
      var laid := SetFound(x, m.ignoreCase, p + 1, depth);
      SetRead(x, m.ignoreCase, laid, p + 1, depth);
      HeldByClass(set_, G.SetTexts(x, m.ignoreCase, laid), false);
      layout := G.SetAt(ClassOf(set_, false), laid, laid.end);
    } else {
      var parts := ClassFound(x, m.ignoreCase, p, depth);
      layout := G.ClassAt(ClassOf(set_, Inverted(x, p + 1)), parts, q);
    }
  }

  lemma {:induction false} LayoutFound(x: Context, m: P.Modifiers, s: State, depth: nat) returns (layout: G.Layout)
    requires (x.sets ==> x.unicode) && Begins(x, s.position) && Atom(x, m, s, depth).Some?
    ensures G.AtomLaid(x, m, layout, s.position, MarksOf(s), depth)
    decreases |x.units| - s.position, 0
  {
    hide Atom;
    hide BraceQuantifier;
    if At(x, s.position) == OPEN {
      layout := GroupFound(x, m, s, depth);
    } else {
      layout := SimpleFound(x, m, s, depth);
    }
  }

  lemma {:induction false} GroupFound(x: Context, m: P.Modifiers, s: State, depth: nat) returns (layout: G.Layout)
    requires (x.sets ==> x.unicode) && At(x, s.position) == OPEN && Atom(x, m, s, depth).Some?
    ensures G.AtomLaid(x, m, layout, s.position, MarksOf(s), depth)
    decreases |x.units| - (s.position + 1), 4
  {
    hide GroupHead;
    hide Inner;
    hide Enclosed;
    hide QuantifiableGroup;
    hide Disjunction;
    hide DisjunctionTree;
    hide G.HeadLaid;
    hide G.LinesLaid;
    hide G.Around;
    hide G.Entered;
    hide CharacterClass;
    hide Escape;
    hide ReadsLines;
    var p := s.position;
    var inside := GroupHead(x, s, p + 1).value;
    var head := HeadFound(x, m, s, p + 1);
    HeadRead(x, m, s, head, p + 1, inside.position);
    var lines := LinesFound(x, Inner(x, m, p + 1), inside, true, depth + 1);
    LinesRead(x, Inner(x, m, p + 1), inside, true, depth + 1, lines);
    LinesAfter(x, Inner(x, m, p + 1), inside, true, depth + 1, lines);
    GlyphIs(x, p);
    GlyphIs(x, G.EndOfLines(lines));
    layout := G.GroupAt(head, inside.position, lines, G.EndOfLines(lines) + 1);
  }

  lemma LinesAfter(x: Context, m: P.Modifiers, s: State, inGroup: bool, depth: nat, lines: seq<G.Line>)
    requires ReadsLines(x, m, s, inGroup, depth, lines)
    ensures Disjunction(x, m, s, inGroup, depth).value.position == G.EndOfLines(lines)
  {
  }

  lemma {:induction false} LinesFound(x: Context, m: P.Modifiers, s: State, inGroup: bool, depth: nat) returns (lines: seq<G.Line>)
    requires (x.sets ==> x.unicode) && s.position <= |x.units| && Disjunction(x, m, s, inGroup, depth).Some?
    requires var end := Disjunction(x, m, s, inGroup, depth).value.position;
             end == |x.units| || (inGroup && At(x, end) == CLOSE)
    ensures G.LinesLaid(x, m, lines, s.position, MarksOf(s), inGroup, depth)
    decreases |x.units| - s.position, 3
  {
    hide Sequence;
    hide SequenceTree;
    hide G.TermsLaid;
    hide ReadsTerms;
    var after := Sequence(x, m, s, inGroup, depth).value;
    var terms := TermsFound(x, m, s, inGroup, depth);
    TermsRead(x, m, s, inGroup, depth, terms, after.position);
    TermsAfter(x, m, s, inGroup, depth, terms, after.position);
    var line := G.Line(terms, after.position);
    GlyphIs(x, after.position);
    if At(x, after.position) != 0x7c {
      lines := [line];
    } else {
      var rest := LinesFound(x, m, NextAlternative(after), inGroup, depth);
      lines := [line] + rest;
      assert lines[1..] == rest;
    }
  }

  lemma TermsAfter(x: Context, m: P.Modifiers, s: State, inGroup: bool, depth: nat, terms: seq<G.TermAt>, q: nat)
    requires ReadsTerms(x, m, s, inGroup, depth, terms, q)
    ensures MarksOf(Sequence(x, m, s, inGroup, depth).value) == G.AfterTerms(terms, MarksOf(s))
  {
  }

  lemma {:induction false} TermsFound(x: Context, m: P.Modifiers, s: State, inGroup: bool, depth: nat) returns (terms: seq<G.TermAt>)
    requires (x.sets ==> x.unicode) && Sequence(x, m, s, inGroup, depth).Some?
    ensures var q := Sequence(x, m, s, inGroup, depth).value.position;
            Ends(x, q, inGroup) && G.TermsLaid(x, m, terms, s.position, q, MarksOf(s), depth)
    decreases |x.units| - s.position, 2
  {
    hide Atom;
    hide Quantifier;
    hide BraceQuantifier;
    hide G.AtomLaid;
    hide G.Quantifier;
    hide G.NoQuantifier;
    hide G.AfterAtom;
    if Ends(x, s.position, inGroup) {
      terms := [];
    } else {
      var layout := LayoutFound(x, m, s, depth);
      LayoutRead(x, m, s, depth, layout);
      var after := Atom(x, m, s, depth).value.0;
      if !G.Repeats(x, layout) && At(x, after.position) == 0x7b {
        NothingToRepeat(x, m, after, inGroup, depth);
      }
      var term := TermFound(x, m, layout, s.position, MarksOf(s), depth);
      var next := Quantified(s, after, term.end, term.quantifier);
      assert term.quantifier.None? ==> next == after;
      assert Sequence(x, m, s, inGroup, depth) == Sequence(x, m, next, inGroup, depth);
      var rest := TermsFound(x, m, next, inGroup, depth);
      terms := [term] + rest;
      assert terms[1..] == rest;
    }
  }

  /** A brace where nothing can be repeated is a character. */
  lemma NothingToRepeat(x: Context, m: P.Modifiers, s: State, inGroup: bool, depth: nat)
    requires At(x, s.position) == 0x7b && Sequence(x, m, s, inGroup, depth).Some?
    ensures Quantifier(x, s.position) == Some((s.position, None))
  {
    hide Quantifier;
    hide BraceQuantifier;
    hide Escape;
    hide CharacterClass;
    hide Group;
    GlyphIs(x, s.position);
    IsBracesIs(x, s.position);
    QuantifierExact(x, s.position);
  }

  /** A term from an atom and what stands behind it. */
  lemma TermFound(x: Context, m: P.Modifiers, layout: G.Layout, p: nat, k: G.Marks, depth: nat) returns (term: G.TermAt)
    requires G.AtomLaid(x, m, layout, p, k, depth)
    requires var r := Quantifier(x, layout.end); r.Some? && (r.value.1.Some? ==> G.Repeats(x, layout))
    ensures G.TermLaid(x, m, term, p, k, depth) && term.layout == layout
    ensures Quantifier(x, layout.end) == Some((term.end, term.quantifier))
  {
    hide Quantifier;
    hide G.AtomLaid;
    hide G.Quantifier;
    hide G.NoQuantifier;
    QuantifierExact(x, layout.end);
    var (q, quantifier) := Quantifier(x, layout.end).value;
    if quantifier.None? {
      term := G.TermAt(layout, None, 0, q);
    } else {
      var comma :| G.Quantifier(x, layout.end, comma, q, quantifier.value);
      term := G.TermAt(layout, quantifier, comma, q);
    }
  }

  /** Every text that is accepted is laid out. */
  lemma PatternFound(x: Context, m: P.Modifiers) returns (lines: seq<G.Line>)
    requires (x.sets ==> x.unicode) && Parse(x, m).Some?
    ensures G.PatternLaid(x, m, lines)
  {
    hide Disjunction;
    hide G.LinesLaid;
    lines := LinesFound(x, m, START, false, 0);
  }

  /** The parser accepts exactly the texts of the grammar, and gives the tree that is laid out, of which there is only one. */
  lemma ParserIsGrammar(x: Context, m: P.Modifiers, tree: P.Expression)
    requires x.sets ==> x.unicode
    ensures Parse(x, m).Some? && Tree(x, m) == tree <==>
      exists lines :: G.PatternLaid(x, m, lines) && P.Expression(G.LinesOf(lines)) == tree
  {
    hide Parse;
    hide Tree;
    hide G.PatternLaid;
    if Parse(x, m).Some? && Tree(x, m) == tree {
      var lines := PatternFound(x, m);
      PatternRead(x, m, lines);
    }
    if lines :| G.PatternLaid(x, m, lines) && P.Expression(G.LinesOf(lines)) == tree {
      PatternRead(x, m, lines);
    }
  }
}
