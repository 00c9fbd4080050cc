/** The parser reads classes with set notation exactly as the grammar writes them. */
module GrammarNotation {
  import opened Basics
  import opened Prepass
  import opened ClassContents
  import opened Syntax
  import opened GrammarCharacters
  import opened GrammarSets
  import opened GrammarClasses
  import G = Grammar

  // ---- Characters ----

  lemma SetEscapeIs(x: Context, ignoreCase: bool, p: nat, q: nat, inClass: bool, allowSets: bool, c: CodePoint)
    requires x.unicode && At(x, p) == BACKSLASH
    ensures SetAtom(x, ignoreCase, p, inClass, allowSets) == Some((q, Single(c))) <==>
      ClassAtom(x, ignoreCase, p) == Some((q, Single(c))) && (inClass || At(x, p + 1) != 0x2d)
  {
    hide UnicodeEscape;
    hide HexEscape;
    hide PropertyEscape;
    hide LegacyOctal;
    hide SetStrings;
  }

  /** In Unicode mode a set has the escapes of a class, strings having no dash. */
  lemma SetEscapes(x: Context, p: nat, q: nat, inClass: bool, c: nat)
    requires x.unicode && G.Glyph(x, p) == '\\'
    ensures G.SetCharacter(x, p, q, inClass, c) <==> G.Escapes(x, p + 1, q, true, c) && (inClass || G.Glyph(x, p + 1) != '-')
  {
    hide G.UnicodeEscape;
    hide G.Digits;
    hide G.Numeral;
    GlyphIs(x, p + 1);
    OtherEscape(x, p + 1, q, c);
  }

  lemma PlainSetCharacterIs(x: Context, ignoreCase: bool, p: nat, q: nat, inClass: bool, allowSets: bool, c: CodePoint)
    requires At(x, p) != BACKSLASH
    ensures G.SetCharacter(x, p, q, inClass, c) <==> SetAtom(x, ignoreCase, p, inClass, allowSets) == Some((q, Single(c)))
  {
    GlyphIs(x, p);
    GlyphIs(x, p + 1);
    StandsIs(x, p, q, c);
    DoubleIs(x, p);
  }

  lemma DoubleIs(x: Context, p: nat)
    ensures G.IsDouble(G.Glyph(x, p)) <==> IsDoublePunctuator(At(x, p))
  {
    GlyphIs(x, p);
  }

  lemma SetCharacterIs(x: Context, ignoreCase: bool, p: nat, q: nat, inClass: bool, allowSets: bool, c: CodePoint)
    requires x.unicode
    ensures G.SetCharacter(x, p, q, inClass, c) <==> SetAtom(x, ignoreCase, p, inClass, allowSets) == Some((q, Single(c)))
  {
    hide G.SetCharacter;
    hide SetAtom;
    hide ClassAtom;
    hide G.Escapes;
    GlyphIs(x, p);
    GlyphIs(x, p + 1);
    if At(x, p) == BACKSLASH {
      SetEscapes(x, p, q, inClass, c);
      ClassEscapeIs(x, ignoreCase, p, q, c);
      SetEscapeIs(x, ignoreCase, p, q, inClass, allowSets, c);
    } else {
      PlainSetCharacterIs(x, ignoreCase, p, q, inClass, allowSets, c);
    }
  }

  lemma SetCharacterStarts(x: Context, p: nat, q: nat, inClass: bool, c: nat)
    requires G.SetCharacter(x, p, q, inClass, c)
    ensures At(x, p) !in {-1, 0x2d, OPEN_CLASS, CLOSE_CLASS} && !(At(x, p) == 0x26 == At(x, p + 1))
    ensures p < |x.units|
  {
    GlyphIs(x, p);
    GlyphIs(x, p + 1);
  }

  // ---- Strings ----

  lemma {:induction false} StringRead(x: Context, ignoreCase: bool, spelt: seq<G.Spelt>, p: nat, q: nat, s: Text, so: ClassSet)
    requires x.unicode && G.StringLaid(x, spelt, p, q)
    ensures SetStrings(x, ignoreCase, p, s, so) == SetStrings(x, ignoreCase, q, s + G.TextOf(spelt), so)
    decreases |spelt|
  {
    hide SetAtom;
    hide G.SetCharacter;
    if spelt == [] {
      assert s + G.TextOf(spelt) == s;
    } else {
      GlyphIs(x, p);
      SetCharacterStarts(x, p, spelt[0].end, false, spelt[0].c);
      SetCharacterIs(x, ignoreCase, p, spelt[0].end, false, false, spelt[0].c);
      StringRead(x, ignoreCase, spelt[1..], spelt[0].end, q, s + [spelt[0].c], so);
      assert s + [spelt[0].c] + G.TextOf(spelt[1..]) == s + G.TextOf(spelt);
    }
  }

  ghost function Folds(x: Context, ignoreCase: bool, strings: seq<seq<G.Spelt>>): iset<Text> {
    iset i | 0 <= i < |strings| :: G.FoldedText(x, ignoreCase, G.TextOf(strings[i]))
  }

  lemma WithTextContains(x: Context, ignoreCase: bool, s: Text, so: ClassSet, texts: iset<Text>)
    requires Contain(so, texts)
    ensures Contain(WithText(x, ignoreCase, s, so), texts + iset{G.FoldedText(x, ignoreCase, s)})
  {
    assert G.FoldedText(x, true, s) == MapText(Folding(x), s);
    AddContains(G.FoldedText(x, ignoreCase, s), so, texts);
  }

  lemma FoldsFirst(x: Context, ignoreCase: bool, strings: seq<seq<G.Spelt>>)
    requires strings != []
    ensures Folds(x, ignoreCase, strings) ==
      iset{G.FoldedText(x, ignoreCase, G.TextOf(strings[0]))} + Folds(x, ignoreCase, strings[1..])
  {
    var first := G.FoldedText(x, ignoreCase, G.TextOf(strings[0]));
    forall t: Text
      ensures t in Folds(x, ignoreCase, strings) <==> t == first || t in Folds(x, ignoreCase, strings[1..])
    {
      if t in Folds(x, ignoreCase, strings) {
        var i :| 0 <= i < |strings| && t == G.FoldedText(x, ignoreCase, G.TextOf(strings[i]));
        assert i > 0 ==> strings[i] == strings[1..][i - 1];
      }
      if t in Folds(x, ignoreCase, strings[1..]) {
        var i :| 0 <= i < |strings[1..]| && t == G.FoldedText(x, ignoreCase, G.TextOf(strings[1..][i]));
        assert strings[1..][i] == strings[i + 1];
      }
    }
  }

  lemma {:induction false} StringsRead(x: Context, ignoreCase: bool, strings: seq<seq<G.Spelt>>, p: nat, q: nat,
                                       so: ClassSet, texts: iset<Text>)
    requires x.unicode && G.StringsLaid(x, strings, p, q) && Contain(so, texts)
    ensures var r := SetStrings(x, ignoreCase, p, [], so);
            r.Some? && r.value.0 == q && Contain(r.value.1, texts + Folds(x, ignoreCase, strings))
    decreases |strings|
  {
    hide SetAtom;
    hide G.StringLaid;
    hide Contain;
    hide Folds;
    hide WithText;
    var end, first := G.StringEnd(strings[0], p), G.TextOf(strings[0]);
    StringRead(x, ignoreCase, strings[0], p, end, [], so);
    assert [] + first == first;
    GlyphIs(x, end);
    WithTextContains(x, ignoreCase, first, so, texts);
    FoldsFirst(x, ignoreCase, strings);
    var added := iset{G.FoldedText(x, ignoreCase, first)};
    if |strings| == 1 {
      NoFolds(x, ignoreCase, strings[1..]);
      assert texts + added == texts + Folds(x, ignoreCase, strings);
    } else {
      StringsRead(x, ignoreCase, strings[1..], end + 1, q, WithText(x, ignoreCase, first, so), texts + added);
      assert texts + added + Folds(x, ignoreCase, strings[1..]) == texts + Folds(x, ignoreCase, strings);
    }
  }

  lemma NoFolds(x: Context, ignoreCase: bool, strings: seq<seq<G.Spelt>>)
    requires strings == []
    ensures Folds(x, ignoreCase, strings) == iset{}
  {
  }

  // ---- Operands ----

  lemma SingleSet(x: Context, ignoreCase: bool, c: CodePoint)
    ensures Contain(ItemSet(x, ignoreCase, Single(c)), G.Singles(G.Folded(x, ignoreCase, iset{c})))
  {
    IntervalIs(c, c);
    assert Interval(c, c) == iset{c};
    FoldedIs(x, ignoreCase, iset{c});
    PlainContains(G.Folded(x, ignoreCase, iset{c}));
  }

  lemma RangeSet(x: Context, ignoreCase: bool, from: CodePoint, to: CodePoint)
    ensures Contain(Plain(Folded(x, ignoreCase, Interval(from, to))), G.Singles(G.Folded(x, ignoreCase, G.Between(from, to))))
  {
    IntervalIs(from, to);
    FoldedIs(x, ignoreCase, G.Between(from, to));
    PlainContains(G.Folded(x, ignoreCase, G.Between(from, to)));
  }

  /** The parser finds this item, its contents and, if it is one character, that one. */
  ghost predicate ReadsItem(x: Context, ignoreCase: bool, operand: G.Operand, p: nat, depth: nat) {
    var r := SetItem(x, ignoreCase, p, depth);
    && r.Some? && r.value.0 == G.OperandEnd(operand) && (operand.Single? <==> r.value.1.Some?)
    && (operand.Single? ==> r.value.1 == Some(operand.c))
    && Contain(r.value.2, G.OperandTexts(x, ignoreCase, operand))
    && SetOperand(x, ignoreCase, p, depth) == Some((r.value.0, r.value.2))
  }

  lemma SetEscapeStarts(x: Context, ignoreCase: bool, p: nat)
    requires At(x, p) == BACKSLASH
    ensures At(x, p + 1) in {0x64, 0x44, 0x73, 0x53, 0x77, 0x57} ==>
      SetAtom(x, ignoreCase, p, true, true) == Some((p + 2, EscapedItem(At(x, p + 1))))
    ensures At(x, p + 1) in {0x70, 0x50} ==>
      SetAtom(x, ignoreCase, p, true, true) == Ready(PropertyEscape(x, ignoreCase, At(x, p + 1) == 0x50, p + 2))
    ensures At(x, p + 1) == 0x71 && At(x, p + 2) == 0x7b ==>
      SetAtom(x, ignoreCase, p, true, true) == Ready(SetStrings(x, ignoreCase, p + 3, [], NOTHING))
  {
  }

  /** An operand that is no set of its own. */
  lemma SimpleRead(x: Context, ignoreCase: bool, operand: G.Operand, p: nat, depth: nat)
    requires x.unicode && !operand.Nested? && G.OperandLaid(x, ignoreCase, operand, p, depth)
    ensures ReadsItem(x, ignoreCase, operand, p, depth)
  {
    hide SetAtom;
    hide G.SetCharacter;
    hide Contain;
    hide G.Property;
    hide PropertyEscape;
    hide SetStrings;
    hide G.StringsLaid;
    hide G.KindIn;
    hide SetClass;
    hide ItemSet;
    GlyphIs(x, p);
    GlyphIs(x, p + 1);
    GlyphIs(x, p + 2);
    match operand
    case Single(c, end) =>
      SetCharacterStarts(x, p, end, true, c);
      SetCharacterIs(x, ignoreCase, p, end, true, true, c);
      SingleSet(x, ignoreCase, c);
    case KindOf(letter, end) =>
      SetEscapeStarts(x, ignoreCase, p);
      KindAdds(x, ignoreCase, letter);
      NoScalar(letter);
    case PropertyOf(texts, middle, end) =>
      PropertyStarts(x, ignoreCase, p + 1, middle, end, texts);
      PropertyIs(x, ignoreCase, p + 1, middle, end, texts);
      SetEscapeStarts(x, ignoreCase, p);
      PreparedSet(x, ignoreCase, PropertyEscape(x, ignoreCase, At(x, p + 1) == 0x50, p + 2).value.1);
    case Strings(strings, end) =>
      NothingContains();
      StringsRead(x, ignoreCase, strings, p + 3, end, NOTHING, iset{});
      SetEscapeStarts(x, ignoreCase, p);
      PreparedSet(x, ignoreCase, SetStrings(x, ignoreCase, p + 3, [], NOTHING).value.1);
      assert iset{} + Folds(x, ignoreCase, strings) == G.OperandTexts(x, ignoreCase, operand);
  }

  lemma NoScalar(letter: char)
    ensures !EscapedItem(letter as int).Single?
  {
  }

  lemma PreparedSet(x: Context, ignoreCase: bool, set_: ClassSet)
    ensures ItemSet(x, ignoreCase, Prepared(set_)) == set_
  {
  }

  lemma PropertyStarts(x: Context, ignoreCase: bool, p: nat, middle: nat, q: nat, texts: iset<Text>)
    requires G.Property(x, ignoreCase, p, middle, q, texts)
    ensures At(x, p) in {0x70, 0x50}
  {
    GlyphIs(x, p);
  }

  // ---- Sets ----

  lemma OperandStarts(x: Context, ignoreCase: bool, operand: G.Operand, p: nat, depth: nat)
    requires G.OperandLaid(x, ignoreCase, operand, p, depth)
    ensures At(x, p) !in {-1, 0x2d, CLOSE_CLASS} && !(At(x, p) == 0x26 == At(x, p + 1))
    ensures p < |x.units| && (At(x, p) == OPEN_CLASS <==> operand.Nested?)
  {
    hide G.SetCharacter;
    hide G.Property;
    hide G.StringsLaid;
    hide G.SetLaid;
    GlyphIs(x, p);
    if operand.Single? {
      SetCharacterStarts(x, p, operand.end, true, operand.c);
    }
  }

  lemma PartStarts(x: Context, ignoreCase: bool, part: G.SetPart, p: nat, depth: nat)
    requires G.SetPartLaid(x, ignoreCase, part, p, depth)
    ensures At(x, p) !in {-1, 0x2d, CLOSE_CLASS} && !(At(x, p) == 0x26 == At(x, p + 1)) && p < |x.units|
  {
    hide G.SetCharacter;
    hide G.OperandLaid;
    match part
    case Member(operand) => OperandStarts(x, ignoreCase, operand, p, depth);
    case Range(from, _) => SetCharacterStarts(x, p, from.end, true, from.c);
  }

  lemma UnionStarts(x: Context, ignoreCase: bool, parts: seq<G.SetPart>, p: nat, q: nat, depth: nat)
    requires G.UnionLaid(x, ignoreCase, parts, p, q, depth) && G.Glyph(x, q) == ']'
    ensures At(x, p) != 0x2d && !(At(x, p) == 0x26 == At(x, p + 1)) && (At(x, p) == CLOSE_CLASS <==> parts == [])
  {
    hide G.SetPartLaid;
    GlyphIs(x, q);
    if parts != [] {
      PartStarts(x, ignoreCase, parts[0], p, depth);
    }
  }

  lemma {:induction false} OperandRead(x: Context, ignoreCase: bool, operand: G.Operand, p: nat, depth: nat)
    requires x.unicode && G.OperandLaid(x, ignoreCase, operand, p, depth)
    ensures ReadsItem(x, ignoreCase, operand, p, depth)
    decreases operand
  {
    hide SetClass;
    hide SetAtom;
    hide G.SetLaid;
    hide Contain;
    if operand.Nested? {
      GlyphIs(x, p);
      SetRead(x, ignoreCase, operand.inner, p + 1, depth);
    } else {
      SimpleRead(x, ignoreCase, operand, p, depth);
    }
  }

  /** A set is read as it is laid out. */
  lemma {:induction false} SetRead(x: Context, ignoreCase: bool, set_: G.Set, p: nat, depth: nat)
    requires x.unicode && G.SetLaid(x, ignoreCase, set_, p, depth)
    ensures var r := SetClass(x, ignoreCase, p, depth);
            r.Some? && r.value.0 == set_.end && Contain(r.value.1, G.SetTexts(x, ignoreCase, set_))
    decreases set_
  {
    hide SetItems;
    hide G.BodyLaid;
    hide G.BodyTexts;
    GlyphIs(x, p);
    BodyRead(x, ignoreCase, set_.body, if set_.inverted then p + 1 else p, set_.end - 1, depth + 1);
    if set_.inverted {
      var held := SetItems(x, ignoreCase, p + 1, depth + 1, true, NOTHING).value.1;
      InvertedContains(held, G.BodyTexts(x, ignoreCase, set_.body));
    }
  }

  lemma InvertedContains(held: ClassSet, texts: iset<Text>)
    requires Contain(held, texts)
    ensures held.strings == [] <==> forall t :: t in texts ==> |t| == 1
    ensures held.strings == [] ==>
      Contain(Plain(Outside(held.characters, MAX_CODE_POINT)), G.Singles(G.Between(0, MAX_CODE_POINT)) - texts)
  {
    if held.strings != [] {
      assert held.strings[0] in held.strings;
      assert held.strings[0] in All(held);
    } else {
      var out := Plain(Outside(held.characters, MAX_CODE_POINT));
      forall t: Text
        ensures t in All(out) <==> t in G.Singles(G.Between(0, MAX_CODE_POINT)) - texts
      {
        assert t in texts <==> t in All(held);
      }
    }
  }

  lemma {:induction false} BodyRead(x: Context, ignoreCase: bool, body: G.Body, p: nat, q: nat, depth: nat)
    requires x.unicode && G.BodyLaid(x, ignoreCase, body, p, q, depth) && G.Glyph(x, q) == ']'
    ensures var r := SetItems(x, ignoreCase, p, depth, true, NOTHING);
            r.Some? && r.value.0 == q + 1 && Contain(r.value.1, G.BodyTexts(x, ignoreCase, body))
    decreases body
  {
    hide SetItems;
    hide G.UnionLaid;
    hide G.ChainLaid;
    hide G.OperandLaid;
    hide G.OperandTexts;
    hide Contain;
    NothingContains();
    match body
    case Union(parts) =>
      UnionRead(x, ignoreCase, parts, p, q, depth, true, NOTHING, iset{});
      assert iset{} + G.UnionTexts(x, ignoreCase, parts) == G.UnionTexts(x, ignoreCase, parts);
    case Chain(operator, first, rest) =>
      OperandRead(x, ignoreCase, first, p, depth);
      OperandStarts(x, ignoreCase, first, p, depth);
      var held, texts := SetItem(x, ignoreCase, p, depth).value.2, G.OperandTexts(x, ignoreCase, first);
      UniteContains(NOTHING, held, iset{}, texts);
      assert iset{} + texts == texts;
      ChainRead(x, ignoreCase, operator, rest, G.OperandEnd(first), q, depth, Unite(NOTHING, held), texts);
      ChainBegins(x, ignoreCase, operator, first, rest, p, q, depth);
  }

  /** The first operand of a chain leads to the chain, and the chain to the end. */
  lemma ChainBegins(x: Context, ignoreCase: bool, operator: char, first: G.Operand, rest: seq<G.Operand>, p: nat, q: nat, depth: nat)
    requires operator in {'&', '-'} && rest != [] && ReadsItem(x, ignoreCase, first, p, depth)
    requires p < |x.units| && At(x, p) != CLOSE_CLASS && (At(x, p) == OPEN_CLASS <==> first.Nested?)
    requires G.ChainLaid(x, ignoreCase, operator, rest, G.OperandEnd(first), q, depth) && G.Glyph(x, q) == ']'
    requires var held := SetItem(x, ignoreCase, p, depth).value.2;
             var r := SetChain(x, ignoreCase, G.OperandEnd(first), depth, operator as int, Unite(NOTHING, held));
             r.Some? && r.value.0 == q
    ensures var held := SetItem(x, ignoreCase, p, depth).value.2;
            var r := SetChain(x, ignoreCase, G.OperandEnd(first), depth, operator as int, Unite(NOTHING, held));
            SetItems(x, ignoreCase, p, depth, true, NOTHING) == Some((q + 1, r.value.1))
  {
    hide SetItem;
    hide SetChain;
    hide SetOperand;
    hide Contain;
    hide Unite;
    hide G.OperandTexts;
    hide G.OperandLaid;
    var end := G.OperandEnd(first);
    GlyphIs(x, q);
    GlyphIs(x, end);
    GlyphIs(x, end + 1);
    GlyphIs(x, end + 2);
  }

  lemma {:induction false} ChainRead(x: Context, ignoreCase: bool, operator: char, rest: seq<G.Operand>, p: nat, q: nat, depth: nat,
                                     so: ClassSet, texts: iset<Text>)
    requires x.unicode && operator in {'&', '-'} && G.Glyph(x, q) == ']' && Contain(so, texts)
    requires G.ChainLaid(x, ignoreCase, operator, rest, p, q, depth)
    ensures var r := SetChain(x, ignoreCase, p, depth, operator as int, so);
            r.Some? && r.value.0 == q && Contain(r.value.1, G.ChainTexts(x, ignoreCase, operator, texts, rest))
    decreases rest
  {
    hide SetOperand;
    hide SetItem;
    hide G.OperandLaid;
    hide G.OperandTexts;
    hide Contain;
    GlyphIs(x, p);
    GlyphIs(x, p + 1);
    GlyphIs(x, p + 2);
    if rest != [] {
      OperandRead(x, ignoreCase, rest[0], p + 2, depth);
      var end, held, next := G.OperandEnd(rest[0]), SetOperand(x, ignoreCase, p + 2, depth).value.1, G.OperandTexts(x, ignoreCase, rest[0]);
      IntersectContains(so, held, texts, next);
      SubtractContains(so, held, texts, next);
      ChainRead(x, ignoreCase, operator, rest[1..], end, q, depth, if operator == '&' then Intersect(so, held) else Subtract(so, held),
                if operator == '&' then texts * next else texts - next);
    }
  }

  lemma {:induction false} UnionRead(x: Context, ignoreCase: bool, parts: seq<G.SetPart>, p: nat, q: nat, depth: nat, first: bool,
                                     so: ClassSet, texts: iset<Text>)
    requires x.unicode && G.UnionLaid(x, ignoreCase, parts, p, q, depth) && G.Glyph(x, q) == ']' && Contain(so, texts)
    ensures var r := SetItems(x, ignoreCase, p, depth, first, so);
            r.Some? && r.value.0 == q + 1 && Contain(r.value.1, texts + G.UnionTexts(x, ignoreCase, parts))
    decreases parts
  {
    hide SetItem;
    hide AfterItem;
    hide G.SetPartLaid;
    hide G.PartTexts;
    hide Contain;
    UnionStarts(x, ignoreCase, parts, p, q, depth);
    if parts == [] {
      assert texts + iset{} == texts;
    } else {
      var end, added := G.PartEnd(parts[0]), G.PartTexts(x, ignoreCase, parts[0]);
      UnionStarts(x, ignoreCase, parts[1..], end, q, depth);
      PartStarts(x, ignoreCase, parts[0], p, depth);
      var next := SetPartRead(x, ignoreCase, parts[0], p, depth, first, so, texts);
      UnionRead(x, ignoreCase, parts[1..], end, q, depth, false, next, texts + added);
      assert texts + added + G.UnionTexts(x, ignoreCase, parts[1..]) == texts + (added + G.UnionTexts(x, ignoreCase, parts[1..]));
    }
  }

  /** One part of a union, where no operator follows. */
  lemma {:induction false} SetPartRead(x: Context, ignoreCase: bool, part: G.SetPart, p: nat, depth: nat, first: bool,
                                       so: ClassSet, texts: iset<Text>) returns (next: ClassSet)
    requires x.unicode && G.SetPartLaid(x, ignoreCase, part, p, depth) && p < |x.units| && Contain(so, texts)
    requires var end := G.PartEnd(part); At(x, end) != 0x2d && !(At(x, end) == 0x26 == At(x, end + 1))
    ensures var item := SetItem(x, ignoreCase, p, depth);
            && item.Some? && p < item.value.0
            && AfterItem(x, ignoreCase, p, item.value.0, item.value.1, item.value.2, At(x, p) == OPEN_CLASS, depth, first, so)
               == Some((G.PartEnd(part), next))
    ensures Contain(next, texts + G.PartTexts(x, ignoreCase, part))
    decreases part
  {
    hide SetItem;
    hide SetAtom;
    hide SetChain;
    hide G.OperandLaid;
    hide G.OperandTexts;
    hide G.SetCharacter;
    hide Contain;
    hide Unite;
    match part
    case Member(operand) =>
      OperandRead(x, ignoreCase, operand, p, depth);
      var held := SetItem(x, ignoreCase, p, depth).value.2;
      next := Unite(so, held);
      UniteContains(so, held, texts, G.OperandTexts(x, ignoreCase, operand));
    case Range(from, to) =>
      RangeReads(x, ignoreCase, from, to, p, depth);
      var held := Plain(Folded(x, ignoreCase, Interval(from.c, to.c)));
      next := Unite(so, held);
      RangeSet(x, ignoreCase, from.c, to.c);
      UniteContains(so, held, texts, G.PartTexts(x, ignoreCase, part));
  }

  lemma RangeReads(x: Context, ignoreCase: bool, from: G.Spelt, to: G.Spelt, p: nat, depth: nat)
    requires x.unicode && G.SetPartLaid(x, ignoreCase, G.Range(from, to), p, depth)
    ensures At(x, p) != OPEN_CLASS && At(x, from.end) == 0x2d && At(x, from.end + 1) !in {CLOSE_CLASS, 0x2d}
    ensures var item := SetItem(x, ignoreCase, p, depth); item.Some? && item.value.0 == from.end && item.value.1 == Some(from.c)
    ensures SetAtom(x, ignoreCase, from.end + 1, true, true) == Some((to.end, Single(to.c)))
  {
    hide G.SetCharacter;
    hide SetAtom;
    hide ItemSet;
    SetCharacterStarts(x, p, from.end, true, from.c);
    SetCharacterStarts(x, from.end + 1, to.end, true, to.c);
    SetCharacterIs(x, ignoreCase, p, from.end, true, true, from.c);
    SetCharacterIs(x, ignoreCase, from.end + 1, to.end, true, true, to.c);
    GlyphIs(x, from.end);
  }

  // ---- And every set the parser accepts is one of the grammar ----

  lemma {:induction false} StringsFound(x: Context, ignoreCase: bool, p: nat, s: Text, so: ClassSet) returns (strings: seq<seq<G.Spelt>>)
    requires x.unicode && SetStrings(x, ignoreCase, p, s, so).Some?
    ensures G.StringsLaid(x, strings, p, SetStrings(x, ignoreCase, p, s, so).value.0)
    decreases |x.units| - p
  {
    hide SetAtom;
    hide G.SetCharacter;
    hide WithText;
    GlyphIs(x, p);
    if At(x, p) == 0x7d {
      strings := [[]];
    } else if At(x, p) == 0x7c {
      var rest := StringsFound(x, ignoreCase, p + 1, [], WithText(x, ignoreCase, s, so));
      strings := [[]] + rest;
      assert strings[1..] == rest;
    } else {
      var (end, item) := SetAtom(x, ignoreCase, p, false, false).value;
      var rest := StringsFound(x, ignoreCase, end, s + [item.value], so);
      var one := G.Spelt(item.value, end);
      strings := [[one] + rest[0]] + rest[1..];
      assert strings[0][1..] == rest[0] && strings[1..] == rest[1..];
      assert G.StringEnd(strings[0], p) == G.StringEnd(rest[0], end);
      SetCharacterIs(x, ignoreCase, p, end, false, false, item.value);
    }
  }

  /** Everything but characters is a class escape, a property or strings. */
  lemma SetAtomKinds(x: Context, ignoreCase: bool, p: nat)
    requires SetAtom(x, ignoreCase, p, true, true).Some? && !SetAtom(x, ignoreCase, p, true, true).value.1.Single?
    ensures var (q, read) := SetAtom(x, ignoreCase, p, true, true).value;
      && At(x, p) == BACKSLASH
      && if !read.Prepared? then At(x, p + 1) in {0x64, 0x44, 0x73, 0x53, 0x77, 0x57} && q == p + 2
         else
           || (At(x, p + 1) in {0x70, 0x50} && PropertyEscape(x, ignoreCase, At(x, p + 1) == 0x50, p + 2) == Some((q, read.set_)))
           || (At(x, p + 1) == 0x71 && At(x, p + 2) == 0x7b && SetStrings(x, ignoreCase, p + 3, [], NOTHING) == Some((q, read.set_)))
  {
    hide UnicodeEscape;
    hide HexEscape;
    hide ControlEscape;
    hide PropertyEscape;
    hide SetStrings;
  }

  lemma SimpleFound(x: Context, ignoreCase: bool, p: nat, depth: nat) returns (operand: G.Operand)
    requires x.unicode && SetAtom(x, ignoreCase, p, true, true).Some?
    ensures !operand.Nested? && G.OperandLaid(x, ignoreCase, operand, p, depth)
    ensures G.OperandEnd(operand) == SetAtom(x, ignoreCase, p, true, true).value.0
  {
    hide SetAtom;
    hide G.SetCharacter;
    hide Contain;
    hide G.Property;
    hide PropertyEscape;
    hide SetStrings;
    hide G.StringsLaid;
    hide WordEnd;
    GlyphIs(x, p);
    GlyphIs(x, p + 1);
    GlyphIs(x, p + 2);
    var (q, read) := SetAtom(x, ignoreCase, p, true, true).value;
    if read.Single? {
      SetCharacterIs(x, ignoreCase, p, q, true, true, read.value);
      operand := G.Single(read.value, q);
    } else {
      SetAtomKinds(x, ignoreCase, p);
      if !read.Prepared? {
        operand := G.KindOf(G.Glyph(x, p + 1), q);
      } else if At(x, p + 1) == 0x71 {
        var strings := StringsFound(x, ignoreCase, p + 3, [], NOTHING);
        operand := G.Strings(strings, q);
      } else {
        PropertyAscends(x, ignoreCase, At(x, p + 1) == 0x50, p + 2);
        operand := G.PropertyOf(All(read.set_), WordEnd(x, p + 3), q);
        PropertyIs(x, ignoreCase, p + 1, operand.middle, q, operand.texts);
      }
    }
  }

  /** The strings of a property are in order. */
  lemma PropertyAscends(x: Context, ignoreCase: bool, inverted: bool, p: nat)
    ensures var r := PropertyEscape(x, ignoreCase, inverted, p); r.Some? ==> Contain(r.value.1, All(r.value.1))
  {
    hide PropertyWords;
    var words := PropertyWords(x, p);
    if words.Some? {
      var name, value := words.value.1, words.value.2;
      var found := FoundProperty(x, inverted, name, value);
      if found.Some? {
        var table := CharacterProperty(x.tables, name, value);
        if table.Some? {
          TableSetIs(x, ignoreCase, inverted, CharactersOf(table.value));
        } else {
          SequencesAre(x, ignoreCase, x.tables.sequences(name).value);
        }
      }
    }
  }

  lemma {:induction false} OperandFound(x: Context, ignoreCase: bool, p: nat, depth: nat) returns (operand: G.Operand)
    requires x.unicode && SetItem(x, ignoreCase, p, depth).Some?
    ensures G.OperandLaid(x, ignoreCase, operand, p, depth) && ReadsItem(x, ignoreCase, operand, p, depth)
    decreases |x.units| - p, 1
  {
    hide SetClass;
    hide SetAtom;
    hide ReadsItem;
    hide ItemSet;
    GlyphIs(x, p);
    if At(x, p) == OPEN_CLASS {
      var inner := SetFound(x, ignoreCase, p + 1, depth);
      operand := G.Nested(inner);
    } else {
      operand := SimpleFound(x, ignoreCase, p, depth);
    }
    OperandRead(x, ignoreCase, operand, p, depth);
  }

  /** Every set that is read is laid out. */
  lemma {:induction false} SetFound(x: Context, ignoreCase: bool, p: nat, depth: nat) returns (set_: G.Set)
    requires x.unicode && SetClass(x, ignoreCase, p, depth).Some?
    ensures G.SetLaid(x, ignoreCase, set_, p, depth) && set_.end == SetClass(x, ignoreCase, p, depth).value.0
    decreases |x.units| - p, 4
  {
    hide SetItems;
    hide G.BodyLaid;
    hide G.BodyTexts;
    GlyphIs(x, p);
    var start := if At(x, p) == 0x5e then p + 1 else p;
    var body := BodyFound(x, ignoreCase, start, depth + 1);
    var (end, held) := SetItems(x, ignoreCase, start, depth + 1, true, NOTHING).value;
    set_ := G.Set(At(x, p) == 0x5e, body, end);
    BodyRead(x, ignoreCase, body, start, end - 1, depth + 1);
    InvertedContains(held, G.BodyTexts(x, ignoreCase, body));
  }

  lemma {:induction false} BodyFound(x: Context, ignoreCase: bool, p: nat, depth: nat) returns (body: G.Body)
    requires x.unicode && SetItems(x, ignoreCase, p, depth, true, NOTHING).Some?
    ensures var q := SetItems(x, ignoreCase, p, depth, true, NOTHING).value.0;
            0 < q && G.BodyLaid(x, ignoreCase, body, p, q - 1, depth) && G.Glyph(x, q - 1) == ']'
    decreases |x.units| - p, 3
  {
    hide SetItem;
    hide AfterItem;
    hide G.OperandLaid;
    hide G.SetPartLaid;
    hide G.SetCharacter;
    hide Contain;
    GlyphIs(x, p);
    if At(x, p) == CLOSE_CLASS {
      body := G.Union([]);
    } else {
      var (q, scalar, held) := SetItem(x, ignoreCase, p, depth).value;
      var (r, so) := AfterItem(x, ignoreCase, p, q, scalar, held, At(x, p) == OPEN_CLASS, depth, true, NOTHING).value;
      if At(x, q) == At(x, q + 1) && At(x, q) in {0x26, 0x2d} && !(At(x, q) == 0x26 && At(x, q + 2) == 0x26) {
        var first := OperandFound(x, ignoreCase, p, depth);
        body := ChainOfFound(x, ignoreCase, p, depth, first);
      } else {
        var part := SetPartFound(x, ignoreCase, p, depth, true, NOTHING);
        var rest := UnionFound(x, ignoreCase, r, depth, so);
        body := G.Union([part] + rest);
        assert ([part] + rest)[1..] == rest;
      }
    }
  }

  /** After a first operand and an operator. */
  lemma {:induction false} ChainOfFound(x: Context, ignoreCase: bool, p: nat, depth: nat, first: G.Operand) returns (body: G.Body)
    requires x.unicode && SetItems(x, ignoreCase, p, depth, true, NOTHING).Some? && At(x, p) != CLOSE_CLASS
    requires G.OperandLaid(x, ignoreCase, first, p, depth) && ReadsItem(x, ignoreCase, first, p, depth)
    requires var q := G.OperandEnd(first);
             At(x, q) == At(x, q + 1) && At(x, q) in {0x26, 0x2d} && !(At(x, q) == 0x26 && At(x, q + 2) == 0x26)
    ensures var q := SetItems(x, ignoreCase, p, depth, true, NOTHING).value.0;
            0 < q && G.BodyLaid(x, ignoreCase, body, p, q - 1, depth) && G.Glyph(x, q - 1) == ']'
    decreases |x.units| - p, 2
  {
    hide SetItem;
    hide SetChain;
    hide SetOperand;
    hide G.OperandLaid;
    hide Contain;
    hide Unite;
    var end := G.OperandEnd(first);
    var held := SetItem(x, ignoreCase, p, depth).value.2;
    GlyphIs(x, end);
    GlyphIs(x, end + 1);
    var operator := G.Glyph(x, end);
    var rest := ChainFound(x, ignoreCase, operator, end, depth, Unite(NOTHING, held));
    body := G.Chain(operator, first, rest);
    var q := SetChain(x, ignoreCase, end, depth, operator as int, Unite(NOTHING, held)).value.0;
    GlyphIs(x, q);
  }

  lemma {:induction false} ChainFound(x: Context, ignoreCase: bool, operator: char, p: nat, depth: nat, so: ClassSet)
    returns (rest: seq<G.Operand>)
    requires x.unicode && operator in {'&', '-'} && SetChain(x, ignoreCase, p, depth, operator as int, so).Some?
    ensures var q := SetChain(x, ignoreCase, p, depth, operator as int, so).value.0;
            && G.ChainLaid(x, ignoreCase, operator, rest, p, q, depth) && G.Glyph(x, q) == ']'
            && (At(x, p) == operator as int ==> rest != [])
    decreases |x.units| - p, 4
  {
    hide SetOperand;
    hide SetItem;
    hide G.OperandLaid;
    hide Contain;
    hide Intersect;
    hide Subtract;
    GlyphIs(x, p);
    GlyphIs(x, p + 1);
    GlyphIs(x, p + 2);
    if At(x, p) == CLOSE_CLASS {
      rest := [];
    } else {
      ItemOfOperand(x, ignoreCase, p + 2, depth);
      var operand := OperandFound(x, ignoreCase, p + 2, depth);
      var (end, held) := SetOperand(x, ignoreCase, p + 2, depth).value;
      var others := ChainFound(x, ignoreCase, operator, end, depth, if operator == '&' then Intersect(so, held) else Subtract(so, held));
      rest := [operand] + others;
      assert rest[1..] == others;
    }
  }

  lemma ItemOfOperand(x: Context, ignoreCase: bool, p: nat, depth: nat)
    ensures SetOperand(x, ignoreCase, p, depth).Some? ==> SetItem(x, ignoreCase, p, depth).Some?
  {
    hide SetClass;
    hide SetAtom;
    hide ItemSet;
  }

  lemma {:induction false} UnionFound(x: Context, ignoreCase: bool, p: nat, depth: nat, so: ClassSet) returns (parts: seq<G.SetPart>)
    requires x.unicode && SetItems(x, ignoreCase, p, depth, false, so).Some?
    ensures var q := SetItems(x, ignoreCase, p, depth, false, so).value.0;
            0 < q && G.UnionLaid(x, ignoreCase, parts, p, q - 1, depth) && G.Glyph(x, q - 1) == ']'
    decreases |x.units| - p, 3
  {
    hide SetItem;
    hide AfterItem;
    hide G.SetPartLaid;
    GlyphIs(x, p);
    if At(x, p) == CLOSE_CLASS {
      parts := [];
    } else {
      var (q, scalar, held) := SetItem(x, ignoreCase, p, depth).value;
      var (r, next) := AfterItem(x, ignoreCase, p, q, scalar, held, At(x, p) == OPEN_CLASS, depth, false, so).value;
      var part := SetPartFound(x, ignoreCase, p, depth, false, so);
      var rest := UnionFound(x, ignoreCase, r, depth, next);
      parts := [part] + rest;
      assert parts[1..] == rest;
    }
  }

  /** A member or a range, where there is no operator. */
  lemma {:induction false} SetPartFound(x: Context, ignoreCase: bool, p: nat, depth: nat, first: bool, so: ClassSet)
    returns (part: G.SetPart)
    requires x.unicode && p < |x.units| && SetItem(x, ignoreCase, p, depth).Some?
    requires var (q, scalar, held) := SetItem(x, ignoreCase, p, depth).value;
             && AfterItem(x, ignoreCase, p, q, scalar, held, At(x, p) == OPEN_CLASS, depth, first, so).Some?
             && (first ==> !(At(x, q) == At(x, q + 1) && At(x, q) in {0x26, 0x2d} && !(At(x, q) == 0x26 && At(x, q + 2) == 0x26)))
    ensures var (q, scalar, held) := SetItem(x, ignoreCase, p, depth).value;
            && G.SetPartLaid(x, ignoreCase, part, p, depth)
            && G.PartEnd(part) == AfterItem(x, ignoreCase, p, q, scalar, held, At(x, p) == OPEN_CLASS, depth, first, so).value.0
    decreases |x.units| - p, 2
  {
    hide SetItem;
    hide SetAtom;
    hide SetChain;
    hide G.OperandLaid;
    hide G.SetCharacter;
    hide Contain;
    hide Unite;
    hide Folded;
    var (q, scalar, held) := SetItem(x, ignoreCase, p, depth).value;
    var operand := OperandFound(x, ignoreCase, p, depth);
    GlyphIs(x, q);
    if At(x, p) != OPEN_CLASS && At(x, q) == 0x2d && At(x, q + 1) != CLOSE_CLASS {
      var (end, item) := SetAtom(x, ignoreCase, q + 1, true, true).value;
      part := G.Range(G.Spelt(scalar.value, q), G.Spelt(item.value, end));
      SetCharacterIs(x, ignoreCase, q + 1, end, true, true, item.value);
      SingleLaid(x, ignoreCase, operand, p, depth);
    } else {
      part := G.Member(operand);
    }
  }

  lemma SingleLaid(x: Context, ignoreCase: bool, operand: G.Operand, p: nat, depth: nat)
    requires operand.Single? && G.OperandLaid(x, ignoreCase, operand, p, depth)
    ensures G.SetCharacter(x, p, operand.end, true, operand.c)
  {
  }
}
