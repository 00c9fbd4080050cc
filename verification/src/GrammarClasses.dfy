/** The parser reads class escapes, properties and classes without set notation exactly as the grammar writes them. */
module GrammarClasses {
  import opened Basics
  import opened Characters
  import opened CharacterRanges
  import opened Prepass
  import opened ClassContents
  import opened Syntax
  import opened GrammarCharacters
  import opened GrammarSets
  import G = Grammar
  import P = Pattern

  // ---- Class escapes ----

  lemma DigitRangesAre(c: CodePoint)
    ensures Member(DigitRanges(), c) <==> 0x30 <= c <= 0x39
  {
    assert DigitRanges()[0] == CharacterRange(0x30, 0x39);
  }

  lemma WordRangesAre(c: CodePoint)
    ensures Member(WordRanges(), c) <==> 0x30 <= c <= 0x39 || 0x41 <= c <= 0x5a || c == 0x5f || 0x61 <= c <= 0x7a
  {
    var r := WordRanges();
    assert r[0] == CharacterRange(0x30, 0x39) && r[1] == CharacterRange(0x41, 0x5a);
    assert r[2] == CharacterRange(0x5f, 0x5f) && r[3] == CharacterRange(0x61, 0x7a);
  }

  lemma SpaceRangesAre(c: CodePoint)
    ensures Member(SpaceRanges(), c) <==> IsSpace(c)
  {
    var r := SpaceRanges();
    assert r[0].start == 0x9 && r[1].start == 0x20 && r[2].start == 0xa0 && r[3].start == 0x1680 && r[4].start == 0x2000;
    assert r[5].start == 0x2028 && r[6].start == 0x202f && r[7].start == 0x205f && r[8].start == 0x3000 && r[9].start == 0xfeff;
  }

  lemma KindIs(letter: char)
    requires G.IsKind(letter)
    ensures CharactersOf(EscapedRanges(letter as int)) == G.Kind(letter)
    ensures forall c :: c in G.Kind(letter) ==> c <= 0xffff
  {
    forall c: CodePoint
      ensures c in CharactersOf(EscapedRanges(letter as int)) <==> c in G.Kind(letter)
    {
      DigitRangesAre(c);
      WordRangesAre(c);
      SpaceRangesAre(c);
    }
  }

  /** The word characters of boundaries are those of the class escape, and two more where case is ignored. */
  lemma WordIsKind(c: CodePoint)
    ensures IsWord(c, false) <==> c in G.Kind('w')
    ensures IsWord(c, true) <==> c in G.Kind('w') + iset{0x017f, 0x212a}
    ensures IsLineTerminator(c) ==> c in G.Kind('s')
  {
  }

  lemma AllIs(x: Context)
    ensures Interval(0, MaxCharacter(x)) == G.Between(0, G.LastCharacter(x))
  {
    IntervalIs(0, MaxCharacter(x));
  }

  lemma IntervalIs(from: CodePoint, to: CodePoint)
    ensures Interval(from, to) == G.Between(from, to)
  {
    forall c: CodePoint
      ensures c in Interval(from, to) <==> from <= c <= to
    {
      assert [CharacterRange(from, to)][0] == CharacterRange(from, to);
    }
  }

  /** What a class escape adds to a class. */
  lemma KindAdds(x: Context, ignoreCase: bool, letter: char)
    requires G.IsKind(letter)
    ensures ItemCharacters(x, ignoreCase, EscapedItem(letter as int)) == G.KindIn(x, ignoreCase, letter)
    ensures x.unicode ==> Contain(ItemSet(x, ignoreCase, EscapedItem(letter as int)), G.Singles(G.KindIn(x, ignoreCase, letter)))
  {
    KindIs(letter);
    AllIs(x);
    FoldedIs(x, ignoreCase, G.Kind(letter));
    assert G.Kind(letter) * Interval(0, MaxCharacter(x)) == G.Kind(letter);
    var held := Folded(x, ignoreCase, G.Kind(letter));
    assert Outside(held, MaxCharacter(x)) == G.Between(0, G.LastCharacter(x)) - held;
    PlainContains(G.KindIn(x, ignoreCase, letter));
  }

  // ---- Properties ----

  lemma {:induction false} WordEndIs(x: Context, p: nat, q: nat)
    ensures q == WordEnd(x, p) <==>
      p <= q && (forall i :: p <= i < q ==> G.IsWordGlyph(G.Glyph(x, i))) && !G.IsWordGlyph(G.Glyph(x, q))
    decreases |x.units| - p
  {
    hide G.IsWordGlyph;
    WordGlyphIs(x, p);
    if IsPropertyCharacter(At(x, p)) {
      WordEndIs(x, p + 1, q);
    }
  }

  lemma WordGlyphIs(x: Context, p: nat)
    ensures G.IsWordGlyph(G.Glyph(x, p)) <==> IsPropertyCharacter(At(x, p))
  {
    GlyphIs(x, p);
  }

  lemma EqualsIs(units: seq<Unit>, text: string, name: Name)
    requires G.Equals(name, text)
    ensures G.Equals(units, text) <==> units == name
  {
  }

  lemma NamesAre(units: seq<Unit>)
    ensures G.Equals(units, "Script") <==> units == SCRIPT
    ensures G.Equals(units, "sc") <==> units == SC
    ensures G.Equals(units, "Script_Extensions") <==> units == SCRIPT_EXTENSIONS
    ensures G.Equals(units, "scx") <==> units == SCX
    ensures G.Equals(units, "General_Category") <==> units == GENERAL_CATEGORY
    ensures G.Equals(units, "gc") <==> units == GC
  {
    EqualsIs(units, "Script", SCRIPT);
    EqualsIs(units, "sc", SC);
    EqualsIs(units, "Script_Extensions", SCRIPT_EXTENSIONS);
    EqualsIs(units, "scx", SCX);
    EqualsIs(units, "General_Category", GENERAL_CATEGORY);
    EqualsIs(units, "gc", GC);
  }

  lemma TablesAre(x: Context, name: Name, value: Name)
    ensures G.TableOf(x, name, value) == CharacterProperty(x.tables, name, value)
    ensures G.TakesValue(name) <==> IsValued(name)
  {
    NamesAre(name);
  }

  lemma PropertyTextIs(x: Context, p: nat, middle: nat, q: nat)
    requires At(x, p) in {0x70, 0x50}
    ensures G.PropertyText(x, p, middle, q) <==>
      && middle == WordEnd(x, p + 2) && PropertyWords(x, p + 1).Some? && PropertyWords(x, p + 1).value.0 == q
    ensures G.PropertyText(x, p, middle, q) ==>
      PropertyWords(x, p + 1) == Some((q, x.units[p + 2..middle], if q == middle + 1 then [] else x.units[middle + 1..q - 1]))
  {
    hide WordEnd;
    hide G.IsWordGlyph;
    GlyphIs(x, p);
    GlyphIs(x, p + 1);
    WordEndIs(x, p + 2, middle);
    GlyphIs(x, middle);
    if 0 < q {
      WordEndIs(x, middle + 1, q - 1);
      GlyphIs(x, q - 1);
    }
  }

  /** What a property holds. */
  lemma PropertySetIs(x: Context, ignoreCase: bool, inverted: bool, name: Name, value: Name, texts: iset<Text>)
    ensures var found := FoundProperty(x, inverted, name, value);
            G.PropertyHolds(x, ignoreCase, inverted, name, value, texts) <==>
            found.Some? && Contain(PropertySet(x, ignoreCase, inverted, found.value), texts)
  {
    TablesAre(x, name, value);
    var table := CharacterProperty(x.tables, name, value);
    if table.Some? {
      TableSetIs(x, ignoreCase, inverted, CharactersOf(table.value));
    } else if FoundProperty(x, inverted, name, value).Some? {
      SequencesAre(x, ignoreCase, x.tables.sequences(name).value);
    }
  }

  lemma TableSetIs(x: Context, ignoreCase: bool, inverted: bool, characters: iset<CodePoint>)
    ensures Contain(PropertySet(x, ignoreCase, inverted, Plain(characters)), G.Singles(
        if !inverted then G.Folded(x, ignoreCase, characters)
        else if x.sets then G.Between(0, MAX_CODE_POINT) - G.Folded(x, ignoreCase, characters)
        else G.Folded(x, ignoreCase, G.Between(0, MAX_CODE_POINT) - characters)))
  {
    var all := G.Between(0, MAX_CODE_POINT);
    FoldedIs(x, ignoreCase, characters);
    FoldedIs(x, ignoreCase, all - characters);
    assert Outside(characters, MAX_CODE_POINT) == all - characters;
    var folded := Folded(x, ignoreCase, characters);
    assert Outside(folded, MAX_CODE_POINT) == all - folded;
    PlainContains(if !inverted then folded else if x.sets then all - folded else Folded(x, ignoreCase, all - characters));
  }

  lemma SequencesAre(x: Context, ignoreCase: bool, list: seq<Text>)
    requires x.sets
    ensures Contain(PropertySet(x, ignoreCase, false, AddTexts(list, NOTHING)), G.FoldedTexts(x, ignoreCase, iset t | t in list))
  {
    NothingContains();
    AddAllContain(list, NOTHING, iset{});
    var texts := iset t | t in list;
    assert iset{} + texts == texts;
    if ignoreCase {
      ImageContains(x, AddTexts(list, NOTHING), texts);
    }
  }

  /** A property escape; `p` is the position of its letter. */
  lemma PropertyIs(x: Context, ignoreCase: bool, p: nat, middle: nat, q: nat, texts: iset<Text>)
    requires At(x, p) in {0x70, 0x50}
    ensures var r := PropertyEscape(x, ignoreCase, At(x, p) == 0x50, p + 1);
            G.Property(x, ignoreCase, p, middle, q, texts) <==>
            middle == WordEnd(x, p + 2) && r.Some? && r.value.0 == q && Contain(r.value.1, texts)
  {
    hide PropertyWords;
    hide G.PropertyText;
    hide FoundProperty;
    hide PropertySet;
    hide G.PropertyHolds;
    hide Contain;
    hide WordEnd;
    GlyphIs(x, p);
    PropertyTextIs(x, p, middle, q);
    if G.PropertyText(x, p, middle, q) {
      var words := PropertyWords(x, p + 1).value;
      PropertySetIs(x, ignoreCase, At(x, p) == 0x50, words.1, words.2, texts);
    }
  }

  // ---- Classes without set notation ----

  lemma SingleBound(x: Context, ignoreCase: bool, p: nat)
    ensures var r := ClassAtom(x, ignoreCase, p);
            r.Some? && r.value.1.Single? ==> r.value.1.value <= MaxCharacter(x)
  {
    hide UnicodeEscape;
    hide HexEscape;
    hide ControlEscape;
    hide PropertyEscape;
    hide LegacyOctal;
    hide FourHexValue;
  }

  lemma LoneAdds(x: Context, ignoreCase: bool, c: CodePoint)
    requires c <= MaxCharacter(x)
    ensures ItemCharacters(x, ignoreCase, Single(c)) == G.Folded(x, ignoreCase, iset{c})
  {
    AllIs(x);
    IntervalIs(c, c);
    FoldedIs(x, ignoreCase, iset{c});
    assert Interval(c, c) * Interval(0, MaxCharacter(x)) == iset{c};
  }

  /** The item of the grammar and that of the parser. */
  ghost predicate SameItem(x: Context, ignoreCase: bool, item: G.Item, read: ClassItem) {
    && (item.Lone? <==> read.Single?) && (item.Lone? ==> read.value == item.c <= MaxCharacter(x))
    && ItemCharacters(x, ignoreCase, read) == G.ItemHolds(x, ignoreCase, item)
  }

  lemma ItemRead(x: Context, ignoreCase: bool, item: G.Item, p: nat, q: nat)
    requires G.ItemLaid(x, ignoreCase, item, p, q) && G.Glyph(x, p) != ']'
    ensures var r := ClassAtom(x, ignoreCase, p); r.Some? && r.value.0 == q && SameItem(x, ignoreCase, item, r.value.1)
  {
    hide ClassAtom;
    hide G.ClassCharacter;
    hide PropertyEscape;
    hide ItemCharacters;
    GlyphIs(x, p);
    GlyphIs(x, p + 1);
    match item
    case Lone(c) =>
      ClassCharacterIs(x, ignoreCase, p, q, c);
      SingleBound(x, ignoreCase, p);
      LoneAdds(x, ignoreCase, c);
    case Escape(letter) =>
      KindRead(x, ignoreCase, p);
      KindAdds(x, ignoreCase, letter);
    case PropertyItem(held, middle) =>
      PropertyIs(x, ignoreCase, p + 1, middle, q, G.Singles(held));
      PropertyAdds(x, ignoreCase, p, held);
  }

  lemma KindRead(x: Context, ignoreCase: bool, p: nat)
    requires At(x, p) == BACKSLASH && At(x, p + 1) in {0x64, 0x44, 0x73, 0x53, 0x77, 0x57}
    ensures ClassAtom(x, ignoreCase, p) == Some((p + 2, EscapedItem(At(x, p + 1))))
  {
  }

  lemma PropertyRead(x: Context, ignoreCase: bool, p: nat)
    requires x.unicode && At(x, p) == BACKSLASH && At(x, p + 1) in {0x70, 0x50}
    ensures ClassAtom(x, ignoreCase, p) == Ready(PropertyEscape(x, ignoreCase, At(x, p + 1) == 0x50, p + 2))
  {
  }

  lemma PropertyAdds(x: Context, ignoreCase: bool, p: nat, held: iset<CodePoint>)
    requires x.unicode && At(x, p) == BACKSLASH && At(x, p + 1) in {0x70, 0x50}
    requires var r := PropertyEscape(x, ignoreCase, At(x, p + 1) == 0x50, p + 2); r.Some? && Contain(r.value.1, G.Singles(held))
    ensures var r := ClassAtom(x, ignoreCase, p);
            && r.Some? && r.value.0 == PropertyEscape(x, ignoreCase, At(x, p + 1) == 0x50, p + 2).value.0
            && r.value.1.Prepared? && ItemCharacters(x, ignoreCase, r.value.1) == held
  {
    hide ClassAtom;
    hide PropertyEscape;
    PropertyRead(x, ignoreCase, p);
    AllIs(x);
    var set_ := PropertyEscape(x, ignoreCase, At(x, p + 1) == 0x50, p + 2).value.1;
    CharactersAre(set_, held);
    assert held * Interval(0, MaxCharacter(x)) == held;
  }

  lemma CharactersAre(set_: ClassSet, held: iset<CodePoint>)
    requires All(set_) == G.Singles(held)
    ensures set_.characters == held
  {
    forall c: CodePoint
      ensures c in set_.characters <==> c in held
    {
      assert [c] in All(set_) <==> [c] in G.Singles(held);
    }
  }

  lemma RangeAdds(x: Context, ignoreCase: bool, from: CodePoint, to: CodePoint)
    requires from <= to <= MaxCharacter(x)
    ensures RangeCharacters(x, ignoreCase, Single(from), Single(to)) == Some(G.Folded(x, ignoreCase, G.Between(from, to)))
  {
    AllIs(x);
    IntervalIs(from, to);
    FoldedIs(x, ignoreCase, G.Between(from, to));
    assert Interval(from, to) * Interval(0, MaxCharacter(x)) == G.Between(from, to);
  }

  lemma PartRead(x: Context, ignoreCase: bool, part: G.ClassPart, p: nat)
    requires G.PartLaid(x, ignoreCase, part, p) && G.Glyph(x, p) != ']'
    ensures ClassEntry(x, ignoreCase, p) == Some((part.end, G.PartHolds(x, ignoreCase, part)))
  {
    hide ClassAtom;
    hide G.ItemLaid;
    hide ItemCharacters;
    match part
    case One(item, end) =>
      ItemRead(x, ignoreCase, item, p, end);
      GlyphIs(x, end);
      GlyphIs(x, end + 1);
    case Dash(first, dash, second, end) =>
      ItemRead(x, ignoreCase, first, p, dash);
      ItemRead(x, ignoreCase, second, dash + 1, end);
      GlyphIs(x, dash);
      GlyphIs(x, dash + 1);
      if first.Lone? && second.Lone? {
        RangeAdds(x, ignoreCase, first.c, second.c);
      } else {
        LoneAdds(x, ignoreCase, 0x2d);
      }
  }

  lemma {:induction false} PartsRead(x: Context, ignoreCase: bool, parts: seq<G.ClassPart>, p: nat, q: nat, so: iset<CodePoint>)
    requires G.PartsLaid(x, ignoreCase, parts, p, q) && G.Glyph(x, q) == ']'
    ensures ClassItems(x, ignoreCase, p, so) == Some((q + 1, so + G.PartsHold(x, ignoreCase, parts)))
    decreases |parts|
  {
    hide ClassEntry;
    hide G.PartLaid;
    hide G.PartHolds;
    GlyphIs(x, p);
    if parts == [] {
      assert so + iset{} == so;
    } else {
      PartRead(x, ignoreCase, parts[0], p);
      EntryStarts(x, ignoreCase, p);
      var held := G.PartHolds(x, ignoreCase, parts[0]);
      PartsRead(x, ignoreCase, parts[1..], parts[0].end, q, so + held);
      assert so + held + G.PartsHold(x, ignoreCase, parts[1..]) == so + (held + G.PartsHold(x, ignoreCase, parts[1..]));
    }
  }

  lemma EntryStarts(x: Context, ignoreCase: bool, p: nat)
    ensures ClassEntry(x, ignoreCase, p).Some? ==> At(x, p) != -1
  {
  }

  /** A class is read as it is laid out. */
  lemma ClassRead(x: Context, ignoreCase: bool, class_: P.CharacterClass, parts: seq<G.ClassPart>, p: nat, q: nat, depth: nat)
    requires G.ClassLaid(x, ignoreCase, class_, parts, p, q)
    ensures At(x, p) == OPEN_CLASS
    ensures var r := CharacterClass(x, ignoreCase, p + 1, depth);
            r.Some? && r.value.0 == q && ClassOf(r.value.1, Inverted(x, p + 1)) == class_
  {
    hide ClassItems;
    hide G.PartsLaid;
    hide G.PartsHold;
    hide G.Holds;
    hide ClassOf;
    hide Contain;
    GlyphIs(x, p);
    GlyphIs(x, p + 1);
    var held := G.PartsHold(x, ignoreCase, parts);
    PartsRead(x, ignoreCase, parts, if class_.inverted then p + 2 else p + 1, q - 1, iset{});
    assert iset{} + held == held;
    PlainContains(held);
    ClassIs(Plain(held), G.Singles(held), class_);
  }

  // ---- And every class the parser accepts is one of the grammar ----

  lemma ItemFound(x: Context, ignoreCase: bool, p: nat) returns (item: G.Item)
    requires !x.sets && At(x, p) != CLOSE_CLASS && ClassAtom(x, ignoreCase, p).Some?
    ensures G.ItemLaid(x, ignoreCase, item, p, ClassAtom(x, ignoreCase, p).value.0)
    ensures SameItem(x, ignoreCase, item, ClassAtom(x, ignoreCase, p).value.1)
  {
    hide ClassAtom;
    hide PropertyEscape;
    hide ItemCharacters;
    var (q, read) := ClassAtom(x, ignoreCase, p).value;
    GlyphIs(x, p);
    GlyphIs(x, p + 1);
    if read.Single? {
      item := G.Lone(read.value);
      ClassCharacterIs(x, ignoreCase, p, q, read.value);
    } else {
      AtomKinds(x, ignoreCase, p);
      if read.Prepared? {
        item := PropertyFound(x, ignoreCase, p);
      } else {
        item := G.Escape(G.Glyph(x, p + 1));
      }
    }
    ItemRead(x, ignoreCase, item, p, q);
  }

  /** Everything but characters is a class escape or a property. */
  lemma AtomKinds(x: Context, ignoreCase: bool, p: nat)
    requires ClassAtom(x, ignoreCase, p).Some? && !ClassAtom(x, ignoreCase, p).value.1.Single?
    ensures var (q, read) := ClassAtom(x, ignoreCase, p).value;
      && At(x, p) == BACKSLASH
      && if !read.Prepared? then At(x, p + 1) in {0x64, 0x44, 0x73, 0x53, 0x77, 0x57} && q == p + 2
         else
           && x.unicode && At(x, p + 1) in {0x70, 0x50}
           && PropertyEscape(x, ignoreCase, At(x, p + 1) == 0x50, p + 2) == Some((q, read.set_))
  {
    hide UnicodeEscape;
    hide HexEscape;
    hide ControlEscape;
    hide PropertyEscape;
    hide LegacyOctal;
  }

  lemma PropertyFound(x: Context, ignoreCase: bool, p: nat) returns (item: G.Item)
    requires x.unicode && !x.sets && At(x, p) == BACKSLASH && At(x, p + 1) in {0x70, 0x50}
    requires PropertyEscape(x, ignoreCase, At(x, p + 1) == 0x50, p + 2).Some?
    ensures item.PropertyItem?
    ensures G.ItemLaid(x, ignoreCase, item, p, PropertyEscape(x, ignoreCase, At(x, p + 1) == 0x50, p + 2).value.0)
  {
    hide Contain;
    hide G.Property;
    hide WordEnd;
    var (q, set_) := PropertyEscape(x, ignoreCase, At(x, p + 1) == 0x50, p + 2).value;
    var words := PropertyWords(x, p + 2).value;
    assert set_.strings == [];
    item := G.PropertyItem(set_.characters, WordEnd(x, p + 3));
    PlainContains(set_.characters);
    assert Plain(set_.characters) == set_;
    GlyphIs(x, p);
    PropertyIs(x, ignoreCase, p + 1, item.middle, q, G.Singles(set_.characters));
  }

  lemma PartFound(x: Context, ignoreCase: bool, p: nat) returns (part: G.ClassPart)
    requires !x.sets && At(x, p) != CLOSE_CLASS && ClassEntry(x, ignoreCase, p).Some?
    ensures G.PartLaid(x, ignoreCase, part, p) && part.end == ClassEntry(x, ignoreCase, p).value.0
  {
    hide ClassAtom;
    hide G.ItemLaid;
    hide ItemCharacters;
    hide Folded;
    var first := ItemFound(x, ignoreCase, p);
    var q := ClassAtom(x, ignoreCase, p).value.0;
    GlyphIs(x, q);
    GlyphIs(x, q + 1);
    if At(x, q) == 0x2d && At(x, q + 1) != CLOSE_CLASS {
      var second := ItemFound(x, ignoreCase, q + 1);
      part := G.Dash(first, q, second, ClassAtom(x, ignoreCase, q + 1).value.0);
    } else {
      part := G.One(first, q);
    }
  }

  lemma {:induction false} PartsFound(x: Context, ignoreCase: bool, p: nat, so: iset<CodePoint>) returns (parts: seq<G.ClassPart>)
    requires !x.sets && ClassItems(x, ignoreCase, p, so).Some?
    ensures var q := ClassItems(x, ignoreCase, p, so).value.0;
            0 < q && G.PartsLaid(x, ignoreCase, parts, p, q - 1) && G.Glyph(x, q - 1) == ']'
    decreases |x.units| - p
  {
    hide ClassEntry;
    hide G.PartLaid;
    GlyphIs(x, p);
    if At(x, p) == CLOSE_CLASS {
      parts := [];
    } else {
      var part := PartFound(x, ignoreCase, p);
      var rest := PartsFound(x, ignoreCase, part.end, so + ClassEntry(x, ignoreCase, p).value.1);
      parts := [part] + rest;
      assert parts[1..] == rest;
    }
  }

  /** Every class that is read is laid out. */
  lemma ClassFound(x: Context, ignoreCase: bool, p: nat, depth: nat) returns (parts: seq<G.ClassPart>)
    requires !x.sets && At(x, p) == OPEN_CLASS && CharacterClass(x, ignoreCase, p + 1, depth).Some?
    ensures var r := CharacterClass(x, ignoreCase, p + 1, depth).value;
            G.ClassLaid(x, ignoreCase, ClassOf(r.1, Inverted(x, p + 1)), parts, p, r.0)
  {
    hide ClassItems;
    hide SetClass;
    hide G.PartsLaid;
    hide G.PartsHold;
    hide G.Holds;
    hide Contain;
    hide Ranges;
    GlyphIs(x, p);
    GlyphIs(x, p + 1);
    var r := CharacterClass(x, ignoreCase, p + 1, depth).value;
    var start := if Inverted(x, p + 1) then p + 2 else p + 1;
    parts := PartsFound(x, ignoreCase, start, iset{});
    var held := G.PartsHold(x, ignoreCase, parts);
    PartsRead(x, ignoreCase, parts, start, r.0 - 1, iset{});
    assert iset{} + held == held;
    PlainContains(held);
    HeldByClass(Plain(held), G.Singles(held), Inverted(x, p + 1));
  }
}
