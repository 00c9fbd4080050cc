/** The parser reads group names and the heads of groups exactly as the grammar writes them. */
module GrammarGroups {
  import opened Basics
  import opened Prepass
  import opened Syntax
  import opened GrammarCharacters
  import opened Trees
  import G = Grammar
  import P = Pattern

  // ---- Names ----

  lemma NameEscapeIs(x: Context, p: nat, q: nat, c: nat)
    requires At(x, p) == 0x75
    ensures G.UnicodeEscape(x.(unicode := true), p, q, c) <==> NameEscape(x, p + 1) == Some((c, q))
  {
    hide G.UnicodeEscape;
    hide G.FourHex;
    hide FourHexValue;
    var y := x.(unicode := true);
    assert forall i: nat :: At(y, i) == At(x, i);
    UnicodeEscapeIs(y, p, q, c);
    SameRun(x, y, p + 2);
    SameFour(x, y, p + 1);
    SameFour(x, y, p + 7);
  }

  lemma {:induction false} SameRun(x: Context, y: Context, p: nat)
    requires x.units == y.units
    ensures HexEnd(x, p) == HexEnd(y, p)
    ensures HexRunValue(x, p, HexEnd(x, p)) == HexRunValue(y, p, HexEnd(y, p))
    decreases |x.units| - p
  {
    SameEnd(x, y, p);
    SameValue(x, y, p, HexEnd(x, p));
  }

  lemma {:induction false} SameEnd(x: Context, y: Context, p: nat)
    requires x.units == y.units
    ensures HexEnd(x, p) == HexEnd(y, p)
    decreases |x.units| - p
  {
    if IsHex(At(x, p)) {
      SameEnd(x, y, p + 1);
    }
  }

  lemma {:induction false} SameValue(x: Context, y: Context, p: nat, q: nat)
    requires x.units == y.units && p <= q && forall i :: p <= i < q ==> IsHex(At(x, i)) && IsHex(At(y, i))
    ensures HexRunValue(x, p, q) == HexRunValue(y, p, q)
    decreases q - p
  {
    if p < q {
      SameValue(x, y, p, q - 1);
    }
  }

  lemma SameFour(x: Context, y: Context, p: nat)
    requires x.units == y.units
    ensures FourHex(x, p) <==> FourHex(y, p)
    ensures FourHex(x, p) ==> FourHexValue(x, p) == FourHexValue(y, p)
  {
  }

  lemma NameCharacterIs(x: Context, p: nat, q: nat, c: nat)
    requires p < |x.units| && x.units[p] != 0x3e
    ensures G.NameCharacter(x, p, q, c) <==> NameCharacter(x, p) == Some((c, q))
  {
    hide G.UnicodeEscape;
    hide NameEscape;
    GlyphIs(x, p);
    if x.units[p] == BACKSLASH {
      if At(x, p + 1) == 0x75 {
        NameEscapeIs(x, p + 1, q, c);
      } else {
        NoUnicodeEscape(x, p + 1, q, c);
      }
    }
  }

  lemma NoUnicodeEscape(x: Context, p: nat, q: nat, c: nat)
    requires At(x, p) != 0x75
    ensures !G.UnicodeEscape(x.(unicode := true), p, q, c)
  {
    GlyphIs(x.(unicode := true), p);
  }

  lemma NamePartIs(x: Context, c: nat, first: bool)
    ensures G.IsNamePart(x, c, first) <==> IsIdentifier(x, c, first)
  {
  }

  lemma {:induction false} NameRead(x: Context, spelt: seq<G.Spelt>, p: nat, q: nat, length: nat)
    requires G.NameLaid(x, spelt, p, q, length)
    ensures GroupName(x, p, length) == Some(q) && NameFrom(x, p, length) == G.NameOf(spelt)
    decreases |spelt|
  {
    hide G.NameCharacter;
    hide NameCharacter;
    hide IsIdentifier;
    hide G.IsNamePart;
    GlyphIs(x, p);
    if spelt != [] {
      NameStarts(x, p, spelt[0].end, spelt[0].c);
      NameCharacterIs(x, p, spelt[0].end, spelt[0].c);
      NamePartIs(x, spelt[0].c, length == 0);
      NameRead(x, spelt[1..], spelt[0].end, q, length + G.Bytes(spelt[0].c));
    }
  }

  lemma NameStarts(x: Context, p: nat, q: nat, c: nat)
    requires G.NameCharacter(x, p, q, c)
    ensures p < |x.units| && x.units[p] != 0x3e
  {
    GlyphIs(x, p);
  }

  lemma {:induction false} NameFound(x: Context, p: nat, length: nat) returns (spelt: seq<G.Spelt>)
    requires GroupName(x, p, length).Some?
    ensures G.NameLaid(x, spelt, p, GroupName(x, p, length).value, length)
    decreases |x.units| - p
  {
    hide G.NameCharacter;
    hide NameCharacter;
    hide IsIdentifier;
    hide G.IsNamePart;
    GlyphIs(x, p);
    if x.units[p] == 0x3e {
      spelt := [];
    } else {
      var (c, end) := NameCharacter(x, p).value;
      NameCharacterIs(x, p, end, c);
      NamePartIs(x, c, length == 0);
      var rest := NameFound(x, end, length + Utf8Length(c));
      spelt := [G.Spelt(c, end)] + rest;
      assert spelt[1..] == rest;
    }
  }

  function MarksOf(s: State): G.Marks {
    G.Marks(s.captures, s.names, s.scope)
  }

  /** A reference by name; `p` is after the letter k. */
  lemma NamedReferenceRead(x: Context, s: State, spelt: seq<G.Spelt>, p: nat, q: nat)
    requires G.NamedReference(x, spelt, p, q, MarksOf(s))
    ensures NamedReference(x, s, p).Some? && NamedReference(x, s, p).value.position == q
    ensures MarksOf(NamedReference(x, s, p).value) == MarksOf(s)
    ensures NamedTree(x, s, p) == P.BackReference(G.CapturesNamed(x, MarksOf(s), G.NameOf(spelt)))
  {
    hide GroupName;
    hide NameFrom;
    hide Matching;
    hide Resolve;
    GlyphIs(x, p);
    NameRead(x, spelt, p + 1, q, 0);
  }

  lemma IsNamedReferenceIs(x: Context, s: State, p: nat)
    ensures G.IsNamedReference(x, p, MarksOf(s)) <==>
      At(x, p) == LESS && GroupName(x, p + 1, 0).Some? && References(x, s, NameAt(x, p + 1)) != []
  {
    hide GroupName;
    hide NameFrom;
    hide Matching;
    hide Resolve;
    hide G.NameLaid;
    GlyphIs(x, p);
    if spelt, q :| G.NamedReference(x, spelt, p, q, MarksOf(s)) {
      NameRead(x, spelt, p + 1, q, 0);
    }
    if At(x, p) == LESS && GroupName(x, p + 1, 0).Some? && References(x, s, NameAt(x, p + 1)) != [] {
      var spelt := NameFound(x, p + 1, 0);
      NameRead(x, spelt, p + 1, GroupName(x, p + 1, 0).value, 0);
      assert G.NamedReference(x, spelt, p, GroupName(x, p + 1, 0).value, MarksOf(s));
    }
  }

  // ---- Modifiers ----

  ghost function UnitsOf(x: Context, p: nat, q: nat): set<int> {
    set i | p <= i < q :: At(x, i)
  }

  lemma HasIs(x: Context, p: nat, q: nat, letter: char)
    requires letter in {'i', 'm', 's'}
    ensures G.Has(x, p, q, letter) <==> letter as int in UnitsOf(x, p, q)
  {
    forall i: nat
      ensures G.Glyph(x, i) == letter <==> At(x, i) == letter as int
    {
      GlyphIs(x, i);
    }
    if letter as int in UnitsOf(x, p, q) {
      var i :| p <= i < q && At(x, i) == letter as int;
      assert G.Glyph(x, i) == letter;
    }
    if i :| p <= i < q && G.Glyph(x, i) == letter {
      assert At(x, i) == letter as int;
    }
  }

  lemma {:induction false} LettersAre(x: Context, p: nat, q: nat, seen: set<int>)
    ensures Modifiers(x, p, seen).Some? && Modifiers(x, p, seen).value.0 == q <==>
      && G.Letters(x, p, q) && G.Glyph(x, q) !in {'i', 'm', 's'} && seen !! UnitsOf(x, p, q)
    ensures Modifiers(x, p, seen).Some? && Modifiers(x, p, seen).value.0 == q ==>
      Modifiers(x, p, seen).value.1 == seen + UnitsOf(x, p, q)
    decreases |x.units| - p
  {
    GlyphIs(x, p);
    var unit := At(x, p);
    if unit !in {0x69, 0x6d, 0x73} {
      assert G.Letters(x, p, q) ==> p == q;
      assert UnitsOf(x, p, p) == {};
    } else {
      if p < q {
        assert unit in UnitsOf(x, p, q);
        LettersAre(x, p + 1, q, seen + {unit});
        LettersStep(x, p, q);
        assert seen + {unit} + UnitsOf(x, p + 1, q) == seen + UnitsOf(x, p, q);
      } else if unit !in seen {
        LettersAre(x, p + 1, q, seen + {unit});
      }
    }
  }

  lemma LettersStep(x: Context, p: nat, q: nat)
    requires p < q && At(x, p) in {0x69, 0x6d, 0x73}
    ensures UnitsOf(x, p, q) == {At(x, p)} + UnitsOf(x, p + 1, q)
    ensures G.Letters(x, p, q) <==> G.Letters(x, p + 1, q) && At(x, p) !in UnitsOf(x, p + 1, q)
  {
    GlyphIs(x, p);
    forall i | p < i < q
      ensures G.Glyph(x, i) == G.Glyph(x, p) <==> At(x, i) == At(x, p)
    {
      GlyphIs(x, i);
    }
    if G.Letters(x, p + 1, q) && At(x, p) !in UnitsOf(x, p + 1, q) {
      forall i, j | p <= i < j < q
        ensures G.Glyph(x, i) != G.Glyph(x, j)
      {
        assert At(x, j) in UnitsOf(x, p + 1, q);
      }
    }
  }

  lemma SwitchesAre(x: Context, m: P.Modifiers, to: P.Modifiers, p: nat, dash: nat, colon: nat)
    requires UnitsOf(x, p, dash) <= {0x69, 0x6d, 0x73} && UnitsOf(x, dash + 1, colon) <= {0x69, 0x6d, 0x73}
    ensures var added, removed := UnitsOf(x, p, dash), UnitsOf(x, dash + 1, colon);
            added * removed == {} && Updated(m, added, removed) == to <==>
            && G.Switched(x, p, dash, colon, 'i', m.ignoreCase, to.ignoreCase)
            && G.Switched(x, p, dash, colon, 'm', m.multiline, to.multiline)
            && G.Switched(x, p, dash, colon, 's', m.dotAll, to.dotAll)
  {
    hide G.Has;
    hide UnitsOf;
    HasEach(x, p, dash);
    HasEach(x, dash + 1, colon);
    DisjointIs(UnitsOf(x, p, dash), UnitsOf(x, dash + 1, colon));
  }

  /** The modifiers of a group; `p` is after its question mark. */
  lemma ModifiersAre(x: Context, m: P.Modifiers, to: P.Modifiers, p: nat, dash: nat, colon: nat)
    ensures G.ModifiersLaid(x, m, to, p, dash, colon) <==>
      && ModifierHead(x, p) == Some(colon + 1) && HeadModifiers(x, m, p) == to
      && Modifiers(x, p, {}).value.0 == dash
  {
    hide Modifiers;
    hide G.Letters;
    hide G.Switched;
    hide UnitsOf;
    hide Updated;
    GlyphIs(x, dash);
    GlyphIs(x, colon);
    LettersAre(x, p, dash, {});
    LetterUnits(x, p, dash);
    var added := Modifiers(x, p, {});
    if added.Some? && added.value.0 == dash {
      assert {} + UnitsOf(x, p, dash) == UnitsOf(x, p, dash);
      if At(x, dash) == 0x2d {
        LettersAre(x, dash + 1, colon, {});
        LetterUnits(x, dash + 1, colon);
        assert {} + UnitsOf(x, dash + 1, colon) == UnitsOf(x, dash + 1, colon);
        if G.Letters(x, dash + 1, colon) {
          SwitchesAre(x, m, to, p, dash, colon);
        }
      } else if dash == colon {
        NoUnits(x, dash + 1, colon);
        SwitchesAre(x, m, to, p, dash, colon);
      }
    }
  }

  lemma NoUnits(x: Context, p: nat, q: nat)
    ensures q <= p ==> UnitsOf(x, p, q) == {}
  {
  }

  lemma DisjointIs(a: set<int>, b: set<int>)
    requires a <= {0x69, 0x6d, 0x73} && b <= {0x69, 0x6d, 0x73}
    ensures a * b == {} <==> !(0x69 in a && 0x69 in b) && !(0x6d in a && 0x6d in b) && !(0x73 in a && 0x73 in b)
  {
    assert 0x69 in a && 0x69 in b ==> 0x69 in a * b;
    assert 0x6d in a && 0x6d in b ==> 0x6d in a * b;
    assert 0x73 in a && 0x73 in b ==> 0x73 in a * b;
  }

  lemma LetterUnits(x: Context, p: nat, q: nat)
    ensures G.Letters(x, p, q) ==> UnitsOf(x, p, q) <= {0x69, 0x6d, 0x73} && (UnitsOf(x, p, q) == {} <==> p == q)
  {
    if G.Letters(x, p, q) {
      forall i | p <= i < q
        ensures At(x, i) in {0x69, 0x6d, 0x73}
      {
        GlyphIs(x, i);
      }
      assert p < q ==> At(x, p) in UnitsOf(x, p, q);
    }
  }

  lemma HasEach(x: Context, p: nat, q: nat)
    ensures G.Has(x, p, q, 'i') <==> 0x69 in UnitsOf(x, p, q)
    ensures G.Has(x, p, q, 'm') <==> 0x6d in UnitsOf(x, p, q)
    ensures G.Has(x, p, q, 's') <==> 0x73 in UnitsOf(x, p, q)
  {
    HasIs(x, p, q, 'i');
    HasIs(x, p, q, 'm');
    HasIs(x, p, q, 's');
  }

  // ---- Heads ----

  /** What the parser does at the head of a group; `p` is after the opening parenthesis. */
  ghost predicate ReadsHead(x: Context, m: P.Modifiers, s: State, head: G.Head, p: nat, q: nat) {
    var r := GroupHead(x, s, p);
    && r.Some? && r.value.position == q && MarksOf(r.value) == G.Entered(head, MarksOf(s))
    && Inner(x, m, p) == G.Inside(m, head)
    && (forall body :: Enclosed(x, m, s.captures, p, body) == G.Around(head, body))
    && QuantifiableGroup(x, p) == G.MayRepeat(x, head)
  }

  lemma HeadRead(x: Context, m: P.Modifiers, s: State, head: G.Head, p: nat, q: nat)
    requires G.HeadLaid(x, m, head, p, q, MarksOf(s))
    ensures ReadsHead(x, m, s, head, p, q)
  {
    hide ModifierHead;
    hide HeadModifiers;
    hide Modifiers;
    hide G.ModifiersLaid;
    hide GroupName;
    hide NameFrom;
    hide G.NameLaid;
    GlyphIs(x, p);
    GlyphIs(x, p + 1);
    GlyphIs(x, p + 2);
    assert s.names + [] == s.names;
    match head
    case Named(_, spelt) =>
      NameBegins(x, spelt, p + 2, q);
      NameRead(x, spelt, p + 2, q, 0);
    case Modified(to, dash) =>
      ModifiersAre(x, m, to, p + 1, dash, q - 1);
      ModifiersBegin(x, m, to, p + 1, dash, q - 1);
    case _ =>
  }

  /** A name begins with neither of the characters of a lookbehind. */
  lemma NameBegins(x: Context, spelt: seq<G.Spelt>, p: nat, q: nat)
    requires G.NameLaid(x, spelt, p, q, 0)
    ensures At(x, p) !in {0x3d, 0x21}
  {
    GlyphIs(x, p);
  }

  lemma ModifiersBegin(x: Context, m: P.Modifiers, to: P.Modifiers, p: nat, dash: nat, colon: nat)
    requires G.ModifiersLaid(x, m, to, p, dash, colon)
    ensures At(x, p) in {0x69, 0x6d, 0x73, 0x2d}
  {
    GlyphIs(x, p);
  }

  lemma HeadFound(x: Context, m: P.Modifiers, s: State, p: nat) returns (head: G.Head)
    requires GroupHead(x, s, p).Some?
    ensures G.HeadLaid(x, m, head, p, GroupHead(x, s, p).value.position, MarksOf(s))
  {
    hide ModifierHead;
    hide HeadModifiers;
    hide Modifiers;
    hide G.ModifiersLaid;
    hide GroupName;
    hide NameFrom;
    hide G.NameLaid;
    GlyphIs(x, p);
    GlyphIs(x, p + 1);
    GlyphIs(x, p + 2);
    var q := GroupHead(x, s, p).value.position;
    var kind := At(x, p + 1);
    if At(x, p) != QUESTION {
      head := G.Capturing(s.captures);
    } else if kind == 0x3a {
      head := G.NonCapturing;
    } else if kind in {0x3d, 0x21} {
      head := G.Look(kind == 0x21, false);
    } else if kind == LESS && At(x, p + 2) in {0x3d, 0x21} {
      head := G.Look(At(x, p + 2) == 0x21, true);
    } else if kind == LESS {
      var spelt := NameFound(x, p + 2, 0);
      NameRead(x, spelt, p + 2, q, 0);
      head := G.Named(s.captures, spelt);
    } else {
      var dash := AddedEnd(x, p + 1);
      head := G.Modified(HeadModifiers(x, m, p + 1), dash);
      ModifiersAre(x, m, head.modifiers, p + 1, dash, q - 1);
    }
  }

  lemma AddedEnd(x: Context, p: nat) returns (dash: nat)
    requires ModifierHead(x, p).Some?
    ensures Modifiers(x, p, {}).Some? && dash == Modifiers(x, p, {}).value.0
  {
    dash := Modifiers(x, p, {}).value.0;
  }
}
