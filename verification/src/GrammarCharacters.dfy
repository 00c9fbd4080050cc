/** The parser reads numbers, characters and quantifiers exactly as the grammar writes them. */
module GrammarCharacters {
  import opened Basics
  import opened Characters
  import opened Prepass
  import opened ClassContents
  import opened Syntax
  import opened Trees
  import G = Grammar
  import P = Pattern

  lemma GlyphIs(x: Context, p: nat)
    ensures 0 <= At(x, p) < 0x80 ==> G.Glyph(x, p) as int == At(x, p)
    ensures !(0 <= At(x, p) < 0x80) ==> G.Glyph(x, p) == G.NONE
    ensures G.Glyph(x, p) != G.NONE ==> At(x, p) == G.Glyph(x, p) as int < 0x80
  {
  }

  lemma DigitIs(x: Context, p: nat)
    ensures var d := G.DigitValue(G.Glyph(x, p));
            && (d < 8 <==> IsOctal(At(x, p))) && (d < 10 <==> IsDigit(At(x, p))) && (d < 16 <==> IsHex(At(x, p)))
            && (d < 10 ==> d == At(x, p) - 0x30) && (d < 16 ==> d == HexValue(At(x, p)))
  {
    GlyphIs(x, p);
  }

  // ---- Numbers ----

  lemma {:induction false} HexRunIs(x: Context, p: nat, q: nat)
    requires G.Digits(x, p, q, 16)
    ensures forall i :: p <= i < q ==> IsHex(At(x, i))
    ensures HexRunValue(x, p, q) == G.Numeral(x, p, q, 16)
    decreases q - p
  {
    hide HexValue;
    if p < q {
      HexRunIs(x, p, q - 1);
      DigitIs(x, q - 1);
    }
  }

  lemma FourHexIs(x: Context, p: nat)
    ensures FourHex(x, p) <==> G.Digits(x, p, p + 4, 16)
    ensures FourHex(x, p) ==> FourHexValue(x, p) == G.Numeral(x, p, p + 4, 16)
  {
    hide HexValue;
    DigitIs(x, p);
    DigitIs(x, p + 1);
    DigitIs(x, p + 2);
    DigitIs(x, p + 3);
    if FourHex(x, p) {
      assert G.Numeral(x, p, p, 16) == 0;
      assert G.Numeral(x, p, p + 1, 16) == HexValue(At(x, p));
      assert G.Numeral(x, p, p + 2, 16) == G.Numeral(x, p, p + 1, 16) * 16 + HexValue(At(x, p + 1));
      assert G.Numeral(x, p, p + 3, 16) == G.Numeral(x, p, p + 2, 16) * 16 + HexValue(At(x, p + 2));
    }
  }

  lemma {:induction false} HexEndIs(x: Context, p: nat, q: nat)
    ensures q == HexEnd(x, p) <==> G.Digits(x, p, q, 16) && G.DigitValue(G.Glyph(x, q)) >= 16
    decreases |x.units| - p
  {
    hide HexValue;
    hide G.DigitValue;
    DigitIs(x, p);
    if IsHex(At(x, p)) {
      HexEndIs(x, p + 1, q);
    }
  }

  lemma {:induction false} DigitsEndIs(x: Context, p: nat, q: nat)
    ensures q == DigitsEnd(x, p) <==> G.Digits(x, p, q, 10) && G.DigitValue(G.Glyph(x, q)) >= 10
    decreases |x.units| - p
  {
    hide G.DigitValue;
    DigitIs(x, p);
    if IsDigit(At(x, p)) {
      DigitsEndIs(x, p + 1, q);
    }
  }

  lemma NumeralNext(x: Context, p: nat, q: nat)
    requires G.Digits(x, p, q, 10) && IsDigit(At(x, q))
    ensures G.Digits(x, p, q + 1, 10)
    ensures G.Numeral(x, p, q + 1, 10) == G.Numeral(x, p, q, 10) * 10 + (At(x, q) - 0x30)
  {
    DigitIs(x, q);
  }

  lemma {:induction false} ClampedIs(x: Context, p: nat, i: nat, q: nat)
    requires p <= i <= q && G.Decimal(x, p, q)
    ensures Clamped(x, G.Count(x, p, i), i) == G.Count(x, p, q)
    decreases q - i
  {
    hide G.Numeral;
    hide G.DigitValue;
    DigitIs(x, i);
    if i < q {
      NumeralNext(x, p, i);
      ClampedIs(x, p, i + 1, q);
    }
  }

  lemma CountIs(x: Context, p: nat, q: nat)
    requires G.Decimal(x, p, q)
    ensures Clamped(x, 0, p) == G.Count(x, p, q)
  {
    assert G.Count(x, p, p) == 0;
    ClampedIs(x, p, p, q);
  }

  function Small(n: nat): Option<nat> {
    if n < I32_MAX then Some(n) else None
  }

  lemma {:induction false} DecimalReferenceIs(x: Context, p: nat, i: nat, q: nat)
    requires p < i <= q && G.Decimal(x, p, q)
    ensures DecimalReference(x, Small(G.Numeral(x, p, i, 10)), i) == Small(G.Numeral(x, p, q, 10))
    decreases q - i
  {
    hide G.Numeral;
    hide G.DigitValue;
    DigitIs(x, i);
    if i < q {
      NumeralNext(x, p, i);
      DecimalReferenceIs(x, p, i + 1, q);
    }
  }

  /** A number after a backslash. */
  lemma ReferenceIs(x: Context, p: nat)
    requires 0x31 <= At(x, p) <= 0x39
    ensures var n := DecimalReference(x, Some(At(x, p) - 0x30), p + 1);
            var q := DigitsEnd(x, p + 1);
            && (G.IsReference(x, p) <==> n.Some? && n.value < x.total)
            && (G.IsReference(x, p) ==> G.Refers(x, p, q) && n.value == G.Numeral(x, p, q, 10))
            && (forall r :: G.Refers(x, p, r) ==> r == q)
  {
    hide DecimalReference;
    hide DigitsEnd;
    hide G.Numeral;
    hide G.DigitValue;
    var q := DigitsEnd(x, p + 1);
    GlyphIs(x, p);
    DigitIs(x, p);
    forall r
      ensures G.Decimal(x, p, r) <==> r == q
    {
      DigitsEndIs(x, p + 1, r);
    }
    OneDigit(x, p);
    DecimalReferenceIs(x, p, p + 1, q);
    if G.Numeral(x, p, q, 10) < x.total && G.Numeral(x, p, q, 10) < I32_MAX {
      assert G.Refers(x, p, q);
    }
  }

  lemma OneDigit(x: Context, p: nat)
    requires IsDigit(At(x, p))
    ensures G.Digits(x, p, p + 1, 10) && G.Numeral(x, p, p + 1, 10) == At(x, p) - 0x30
  {
    DigitIs(x, p);
    assert G.Numeral(x, p, p, 10) == 0;
  }

  // ---- Quantifiers ----

  lemma BracesAre(x: Context, p: nat, comma: nat, q: nat)
    ensures G.Braces(x, p, comma, q) <==>
      && BraceQuantifier(x, p) && comma == DigitsEnd(x, p + 1)
      && q == (if At(x, comma) == 0x2c then DigitsEnd(x, comma + 1) else comma) + 1
  {
    hide DigitsEnd;
    hide G.DigitValue;
    GlyphIs(x, p);
    DigitIs(x, p + 1);
    GlyphIs(x, comma);
    DigitIs(x, comma);
    DigitsEndIs(x, p + 1, comma);
    DigitsEndIs(x, comma + 1, comma + 1);
    DigitIs(x, comma + 1);
    if q > 0 {
      GlyphIs(x, q - 1);
      DigitIs(x, q - 1);
      DigitsEndIs(x, comma + 1, q - 1);
    }
  }

  lemma IsBracesIs(x: Context, p: nat)
    ensures G.IsBraces(x, p) <==> BraceQuantifier(x, p)
  {
    hide DigitsEnd;
    hide G.Braces;
    forall comma, q
      ensures G.Braces(x, p, comma, q) ==> BraceQuantifier(x, p)
    {
      BracesAre(x, p, comma, q);
    }
    var comma := DigitsEnd(x, p + 1);
    BracesAre(x, p, comma, (if At(x, comma) == 0x2c then DigitsEnd(x, comma + 1) else comma) + 1);
  }

  /** The bounds between braces. */
  lemma BracesRead(x: Context, p: nat, comma: nat, q: nat)
    requires G.Braces(x, p, comma, q)
    ensures var minimum := G.Count(x, p + 1, comma);
            var maximum := if q == comma + 1 then Some(minimum) else if q == comma + 2 then None else Some(G.Count(x, comma + 1, q - 1));
            Quantifier(x, p) == if maximum.Some? && maximum.value < minimum then None else Repeated(x, q, minimum, maximum)
  {
    hide DigitsEnd;
    hide Clamped;
    hide G.Count;
    hide G.DigitValue;
    BracesAre(x, p, comma, q);
    CountIs(x, p + 1, comma);
    GlyphIs(x, comma);
    GlyphIs(x, q - 1);
    if q > comma + 2 {
      CountIs(x, comma + 1, q - 1);
    }
  }

  lemma QuantifierRead(x: Context, p: nat, comma: nat, q: nat, quantifier: P.Quantifier)
    requires G.Quantifier(x, p, comma, q, quantifier)
    ensures Quantifier(x, p) == Some((q, Some(quantifier)))
  {
    hide G.Braces;
    hide G.Count;
    hide BraceQuantifier;
    GlyphIs(x, p);
    var core := if quantifier.greedy then q else q - 1;
    GlyphIs(x, core);
    if G.Glyph(x, p) !in {'*', '+', '?'} {
      BracesRead(x, p, comma, core);
    }
  }

  /** Every quantifier the parser reads is one of the grammar, and where it reads none there is none. */
  lemma QuantifierExact(x: Context, p: nat)
    ensures Quantifier(x, p) == Some((p, None)) <==> G.NoQuantifier(x, p)
    ensures var r := Quantifier(x, p); r.Some? && r.value.1.None? ==> r.value.0 == p
    ensures var r := Quantifier(x, p);
            r.Some? && r.value.1.Some? ==> exists comma :: G.Quantifier(x, p, comma, r.value.0, r.value.1.value)
  {
    hide G.Braces;
    hide G.Count;
    hide DigitsEnd;
    hide Clamped;
    GlyphIs(x, p);
    IsBracesIs(x, p);
    var r := Quantifier(x, p);
    if BraceQuantifier(x, p) {
      var comma := DigitsEnd(x, p + 1);
      var end := if At(x, comma) == 0x2c then DigitsEnd(x, comma + 1) else comma;
      BracesAre(x, p, comma, end + 1);
      BracesRead(x, p, comma, end + 1);
      GlyphIs(x, end + 1);
      if r.Some? {
        assert G.Quantifier(x, p, comma, r.value.0, r.value.1.value);
      }
    } else if r.Some? && r.value.1.Some? {
      GlyphIs(x, p + 1);
      assert G.Quantifier(x, p, 0, r.value.0, r.value.1.value);
    }
  }

  /** The text at the position. */
  predicate Spells(x: Context, p: nat, text: string) {
    forall i :: 0 <= i < |text| ==> G.Glyph(x, p + i) == text[i]
  }

  /** One count in braces with a comma behind it, or with another. */
  lemma OneCount(x: Context, p: nat, digit: char)
    requires '0' <= digit <= '9' && Spells(x, p, ['{', digit, ',', '}'])
    ensures G.Braces(x, p, p + 2, p + 4) && G.Count(x, p + 1, p + 2) == digit as int - '0' as int
  {
    var text := ['{', digit, ',', '}'];
    assert G.Glyph(x, p + 0) == text[0] && G.Glyph(x, p + 1) == text[1];
    assert G.Glyph(x, p + 2) == text[2] && G.Glyph(x, p + 3) == text[3];
    GlyphIs(x, p + 1);
    OneDigit(x, p + 1);
  }

  lemma TwoCounts(x: Context, p: nat, first: char, second: char)
    requires '0' <= first <= second <= '9' && Spells(x, p, ['{', first, ',', second, '}'])
    ensures G.Braces(x, p, p + 2, p + 5) && G.Count(x, p + 1, p + 2) == first as int - '0' as int
    ensures G.Count(x, p + 3, p + 4) == second as int - '0' as int
  {
    var text := ['{', first, ',', second, '}'];
    assert G.Glyph(x, p + 0) == text[0] && G.Glyph(x, p + 1) == text[1] && G.Glyph(x, p + 2) == text[2];
    assert G.Glyph(x, p + 3) == text[3] && G.Glyph(x, p + 4) == text[4];
    GlyphIs(x, p + 1);
    GlyphIs(x, p + 3);
    OneDigit(x, p + 1);
    OneDigit(x, p + 3);
  }

  lemma ShortForm(x: Context, p: nat, form: char)
    requires form in {'*', '+', '?'} && G.Glyph(x, p) == form
    ensures var bounds := (if form == '+' then 1 else 0, if form == '?' then Some(1) else None);
            Quantifier(x, p) == Repeated(x, p + 1, bounds.0, bounds.1)
    ensures At(x, p + 1) == QUESTION <==> G.Glyph(x, p + 1) == '?'
  {
    hide DigitsEnd;
    hide Clamped;
    GlyphIs(x, p);
    GlyphIs(x, p + 1);
  }

  /** The one-character quantifiers are short for counts in braces, the lazy ones too. */
  lemma ShortForms(x: Context, p: nat, y: Context, q: nat, form: char)
    requires form in {'*', '+', '?'} && G.Glyph(x, p) == form
    requires var long := if form == '*' then "{0,}" else if form == '+' then "{1,}" else "{0,1}";
             Spells(y, q, long) && (G.Glyph(x, p + 1) == '?' <==> G.Glyph(y, q + |long|) == '?')
    ensures Quantifier(x, p).Some? && Quantifier(y, q).Some? && Quantifier(x, p).value.1 == Quantifier(y, q).value.1
    ensures Quantifier(x, p).value.1 ==
      Some(P.Quantifier(if form == '+' then 1 else 0, if form == '?' then Some(1) else None, G.Glyph(x, p + 1) != '?'))
  {
    hide Quantifier;
    hide G.Braces;
    hide G.Count;
    ShortForm(x, p, form);
    if form == '?' {
      GlyphIs(y, q + 5);
      TwoCounts(y, q, '0', '1');
      BracesRead(y, q, q + 2, q + 5);
    } else {
      GlyphIs(y, q + 4);
      OneCount(y, q, if form == '*' then '0' else '1');
      BracesRead(y, q, q + 2, q + 4);
    }
  }

  // ---- Characters behind a backslash; `p` is the position after it ----

  lemma HexEscapeIs(x: Context, p: nat)
    ensures IsHex(At(x, p)) && IsHex(At(x, p + 1)) <==> G.Digits(x, p, p + 2, 16)
    ensures HexEscapeValue(x, p) == if G.Digits(x, p, p + 2, 16) then G.Numeral(x, p, p + 2, 16) else 0x78
  {
    hide HexValue;
    DigitIs(x, p);
    DigitIs(x, p + 1);
    if G.Digits(x, p, p + 2, 16) {
      assert G.Numeral(x, p, p, 16) == 0;
      assert G.Numeral(x, p, p + 1, 16) == HexValue(At(x, p));
    }
  }

  /** A pair of surrogates is the code point that is encoded by it. */
  lemma PairIs(high: Unit, low: Unit, c: nat)
    requires IsHighSurrogate(high) && IsLowSurrogate(low)
    ensures Combine(high, low) <= MAX_CODE_POINT
    ensures c <= MAX_CODE_POINT && Utf16(c) == [high, low] <==> c == Combine(high, low)
  {
    assert Utf16(Combine(high, low)) == [high, low];
    if c <= MAX_CODE_POINT && Utf16(c) == [high, low] {
      assert Utf16(c)[0] == high && Utf16(c)[1] == low;
    }
  }

  lemma UnicodeEscapeIs(x: Context, p: nat, q: nat, c: nat)
    requires At(x, p) == 0x75
    ensures G.UnicodeEscape(x, p, q, c) || (!x.unicode && !G.FourHex(x, p) && q == p + 1 && c == 0x75) <==>
      UnicodeEscape(x, p + 1) == Some(q) && UnicodeEscapeValue(x, p + 1) == c
  {
    hide FourHex;
    hide FourHexValue;
    hide G.Numeral;
    hide HexRunValue;
    hide Combine;
    hide Utf16;
    GlyphIs(x, p);
    GlyphIs(x, p + 1);
    FourHexIs(x, p + 1);
    if x.unicode && At(x, p + 1) == 0x7b {
      BracedEscapeIs(x, p, q, c);
    } else if x.unicode && FourHex(x, p + 1) {
      GlyphIs(x, p + 5);
      GlyphIs(x, p + 6);
      FourHexIs(x, p + 7);
      if G.PairEscape(x, p) {
        PairIs(FourHexValue(x, p + 1), FourHexValue(x, p + 7), c);
      }
    }
  }

  lemma BracedEscapeIs(x: Context, p: nat, q: nat, c: nat)
    requires x.unicode && At(x, p) == 0x75 && At(x, p + 1) == 0x7b
    ensures G.UnicodeEscape(x, p, q, c) <==> UnicodeEscape(x, p + 1) == Some(q) && UnicodeEscapeValue(x, p + 1) == c
  {
    hide FourHex;
    hide G.Numeral;
    hide HexRunValue;
    hide HexEnd;
    GlyphIs(x, p);
    GlyphIs(x, p + 1);
    DigitIs(x, p + 1);
    var end := HexEnd(x, p + 2);
    HexEndIs(x, p + 2, end);
    HexRunIs(x, p + 2, end);
    GlyphIs(x, end);
    if q > 0 {
      GlyphIs(x, q - 1);
      HexEndIs(x, p + 2, q - 1);
      DigitIs(x, q - 1);
    }
  }

  lemma OctalEscapeIs(x: Context, p: nat, q: nat, c: nat)
    requires IsOctal(At(x, p))
    ensures G.OctalEscape(x, p, q, c) <==>
      q == LegacyOctal(x, At(x, p), p + 1) && c == LegacyOctalValue(x, At(x, p), p + 1)
  {
    hide G.DigitValue;
    DigitIs(x, p);
    DigitIs(x, p + 1);
    DigitIs(x, p + 2);
    assert G.Numeral(x, p, p, 8) == 0;
    assert G.Numeral(x, p, p + 1, 8) == At(x, p) - 0x30;
    if IsOctal(At(x, p + 1)) {
      assert G.Numeral(x, p, p + 2, 8) == (At(x, p) - 0x30) * 8 + (At(x, p + 1) - 0x30);
      if IsOctal(At(x, p + 2)) {
        assert G.Numeral(x, p, p + 3, 8) == G.Numeral(x, p, p + 2, 8) * 8 + (At(x, p + 2) - 0x30);
      }
    }
    assert q == p + 1 || q == p + 2 || q == p + 3 || !(p < q <= p + 3);
  }

  lemma StandsIs(x: Context, p: nat, q: nat, c: nat)
    ensures G.Stands(x, p, q, c) <==> p < |x.units| && q == FinishCodePoint(x, At(x, p), p + 1) && c == FinishedValue(x, At(x, p), p + 1)
  {
  }

  lemma ControlEscapeIs(x: Context, p: nat, inClass: bool)
    ensures G.IsControl(x, p, inClass) <==>
      IsLetter(At(x, p)) || (inClass && !x.unicode && (IsDigit(At(x, p)) || At(x, p) == 0x5f))
    ensures G.IsControl(x, p, inClass) ==> ControlEscapeValue(x, p, inClass) == G.Glyph(x, p) as int % 32
  {
    GlyphIs(x, p);
  }

  /** The characters that stand for themselves behind a backslash in both modes. */
  lemma IdentityIs(x: Context, p: nat)
    ensures G.IsSyntax(G.Glyph(x, p)) <==> IsSyntaxCharacter(At(x, p))
    ensures G.Glyph(x, p) == '/' <==> At(x, p) == 0x2f
    ensures G.Glyph(x, p) == '-' <==> At(x, p) == 0x2d
  {
    GlyphIs(x, p);
  }

  lemma OtherEscape(x: Context, p: nat, q: nat, c: nat)
    ensures At(x, p) != 0x75 ==> !G.UnicodeEscape(x, p, q, c) && !G.FourHex(x, p)
    ensures !IsOctal(At(x, p)) ==> !G.OctalEscape(x, p, q, c)
    ensures !(0x31 <= At(x, p) <= 0x39) ==> !G.IsReference(x, p)
  {
    GlyphIs(x, p);
    DigitIs(x, p);
  }

  // The grammar of escapes, unit by unit.

  lemma EscapesU(x: Context, p: nat, q: nat, inClass: bool, c: nat)
    requires At(x, p) == 0x75
    ensures G.Escapes(x, p, q, inClass, c) <==> UnicodeEscape(x, p + 1) == Some(q) && UnicodeEscapeValue(x, p + 1) == c
  {
    hide G.UnicodeEscape;
    hide G.OctalEscape;
    hide UnicodeEscape;
    hide UnicodeEscapeValue;
    hide G.FourHex;
    hide G.IsReference;
    GlyphIs(x, p);
    StandsIs(x, p, q, c);
    OtherEscape(x, p, q, c);
    UnicodeEscapeIs(x, p, q, c);
  }

  lemma EscapesX(x: Context, p: nat, q: nat, inClass: bool, c: nat)
    requires At(x, p) == 0x78
    ensures G.Escapes(x, p, q, inClass, c) <==> HexEscape(x, p + 1) == Some(q) && HexEscapeValue(x, p + 1) == c
  {
    hide G.UnicodeEscape;
    hide G.OctalEscape;
    hide G.FourHex;
    hide G.IsReference;
    hide HexEscapeValue;
    hide G.Digits;
    hide G.Numeral;
    GlyphIs(x, p);
    StandsIs(x, p, q, c);
    OtherEscape(x, p, q, c);
    HexEscapeIs(x, p + 1);
  }

  lemma EscapesC(x: Context, p: nat, q: nat, inClass: bool, c: nat)
    requires 0 < p && At(x, p) == 0x63
    ensures G.Escapes(x, p, q, inClass, c) <==>
      ControlEscape(x, p + 1, p - 1, inClass) == Some(q) && ControlEscapeValue(x, p + 1, inClass) == c
  {
    hide G.UnicodeEscape;
    hide G.OctalEscape;
    hide G.FourHex;
    hide G.IsReference;
    hide G.IsControl;
    GlyphIs(x, p);
    OtherEscape(x, p, q, c);
    ControlEscapeIs(x, p + 1, inClass);
  }

  lemma EscapesDigit(x: Context, p: nat, q: nat, inClass: bool, c: nat)
    requires IsDigit(At(x, p))
    ensures x.unicode ==>
      (G.Escapes(x, p, q, inClass, c) <==> At(x, p) == 0x30 && q == p + 1 && !IsDigit(At(x, q)) && c == 0)
    ensures !x.unicode && !inClass && G.IsReference(x, p) ==> !G.Escapes(x, p, q, inClass, c)
    ensures !x.unicode && (inClass || !G.IsReference(x, p)) ==>
      (G.Escapes(x, p, q, inClass, c) <==>
        if IsOctal(At(x, p)) then q == LegacyOctal(x, At(x, p), p + 1) && c == LegacyOctalValue(x, At(x, p), p + 1)
        else q == p + 1 && c == At(x, p))
  {
    hide G.UnicodeEscape;
    hide G.OctalEscape;
    hide G.FourHex;
    hide G.IsReference;
    hide LegacyOctal;
    hide LegacyOctalValue;
    GlyphIs(x, p);
    DigitIs(x, p);
    DigitIs(x, p + 1);
    StandsIs(x, p, q, c);
    OtherEscape(x, p, q, c);
    if IsOctal(At(x, p)) {
      OctalEscapeIs(x, p, q, c);
    }
  }

  lemma EscapesRest(x: Context, p: nat, q: nat, inClass: bool, c: nat)
    requires At(x, p) !in {0x75, 0x78, 0x63} && !IsDigit(At(x, p))
    ensures var e := At(x, p);
      G.Escapes(x, p, q, inClass, c) <==>
      && e != -1
      && if e in {0x66, 0x6e, 0x72, 0x74, 0x76} || (inClass && e == 0x62) then q == p + 1 && c == ControlLetter(e)
         else if IsSyntaxCharacter(e) || e == 0x2f || (inClass && e == 0x2d) then q == p + 1 && c == e
         else
           && !x.unicode && e !in {0x62, 0x64, 0x44, 0x73, 0x53, 0x77, 0x57} && (inClass || e !in {0x42, 0x6b})
           && q == FinishCodePoint(x, e, p + 1) && c == FinishedValue(x, e, p + 1)
  {
    hide G.UnicodeEscape;
    hide G.OctalEscape;
    hide G.FourHex;
    hide G.IsReference;
    GlyphIs(x, p);
    DigitIs(x, p);
    IdentityIs(x, p);
    StandsIs(x, p, q, c);
    OtherEscape(x, p, q, c);
  }

  lemma ClassEscapeIs(x: Context, ignoreCase: bool, p: nat, q: nat, c: nat)
    requires At(x, p) == BACKSLASH
    ensures G.Escapes(x, p + 1, q, true, c) <==> c <= MAX_CODE_POINT && ClassAtom(x, ignoreCase, p) == Some((q, Single(c)))
  {
    hide G.Escapes;
    hide UnicodeEscape;
    hide UnicodeEscapeValue;
    hide PropertyEscape;
    hide LegacyOctal;
    hide LegacyOctalValue;
    hide HexEscape;
    hide HexEscapeValue;
    hide ControlEscape;
    hide ControlEscapeValue;
    hide ControlLetter;
    var e := At(x, p + 1);
    if e == 0x75 {
      EscapesU(x, p + 1, q, true, c);
    } else if e == 0x78 {
      EscapesX(x, p + 1, q, true, c);
    } else if e == 0x63 {
      EscapesC(x, p + 1, q, true, c);
    } else if IsDigit(e) {
      EscapesDigit(x, p + 1, q, true, c);
    } else {
      EscapesRest(x, p + 1, q, true, c);
    }
  }

  lemma ClassCharacterIs(x: Context, ignoreCase: bool, p: nat, q: nat, c: nat)
    requires At(x, p) != CLOSE_CLASS
    ensures G.ClassCharacter(x, p, q, c) <==> c <= MAX_CODE_POINT && ClassAtom(x, ignoreCase, p) == Some((q, Single(c)))
  {
    hide G.Escapes;
    GlyphIs(x, p);
    if At(x, p) == BACKSLASH {
      ClassEscapeIs(x, ignoreCase, p, q, c);
    } else {
      StandsIs(x, p, q, c);
    }
  }

  lemma DigitEscapeIs(x: Context, m: P.Modifiers, s: State, p: nat, q: nat, c: nat)
    requires IsDigit(At(x, p))
    ensures G.Escapes(x, p, q, false, c) <==>
      Escape(x, m, s, p) == Some((s.(position := q), true)) && EscapeTree(x, m, s, p) == P.Literal(c)
  {
    hide G.Escapes;
    hide UnicodeEscape;
    hide UnicodeEscapeValue;
    hide PropertyEscape;
    hide NamedReference;
    hide NamedTree;
    hide LegacyOctal;
    hide LegacyOctalValue;
    hide HexEscape;
    hide HexEscapeValue;
    hide ControlEscape;
    hide ControlEscapeValue;
    hide ControlLetter;
    hide DecimalReference;
    hide DigitsEnd;
    hide ClassOf;
    hide G.IsReference;
    EscapesDigit(x, p, q, false, c);
    OtherEscape(x, p, q, c);
    if At(x, p) != 0x30 {
      ReferenceIs(x, p);
    }
  }

  /** The letters u, x and c. */
  lemma CodeEscapeIs(x: Context, m: P.Modifiers, s: State, p: nat, q: nat, c: nat)
    requires 0 < p && At(x, p) in {0x75, 0x78, 0x63}
    ensures G.Escapes(x, p, q, false, c) <==>
      Escape(x, m, s, p) == Some((s.(position := q), true)) && EscapeTree(x, m, s, p) == P.Literal(c)
  {
    hide G.Escapes;
    hide UnicodeEscape;
    hide UnicodeEscapeValue;
    hide PropertyEscape;
    hide NamedReference;
    hide NamedTree;
    hide LegacyOctal;
    hide LegacyOctalValue;
    hide HexEscape;
    hide HexEscapeValue;
    hide ControlEscape;
    hide ControlEscapeValue;
    hide ControlLetter;
    hide DecimalReference;
    hide DigitsEnd;
    hide ClassOf;
    hide G.IsReference;
    if At(x, p) == 0x75 {
      EscapesU(x, p, q, false, c);
    } else if At(x, p) == 0x78 {
      EscapesX(x, p, q, false, c);
    } else {
      EscapesC(x, p, q, false, c);
    }
  }

  /** Outside classes, but for the letter k. */
  lemma EscapeIs(x: Context, m: P.Modifiers, s: State, p: nat, q: nat, c: nat)
    requires 0 < p && At(x, p) != 0x6b
    ensures G.Escapes(x, p, q, false, c) <==>
      Escape(x, m, s, p) == Some((s.(position := q), true)) && EscapeTree(x, m, s, p) == P.Literal(c)
  {
    hide G.Escapes;
    hide UnicodeEscape;
    hide UnicodeEscapeValue;
    hide PropertyEscape;
    hide NamedReference;
    hide NamedTree;
    hide LegacyOctal;
    hide LegacyOctalValue;
    hide HexEscape;
    hide HexEscapeValue;
    hide ControlEscape;
    hide ControlEscapeValue;
    hide ControlLetter;
    hide DecimalReference;
    hide DigitsEnd;
    hide ClassOf;
    hide G.IsReference;
    if At(x, p) in {0x75, 0x78, 0x63} {
      CodeEscapeIs(x, m, s, p, q, c);
    } else if IsDigit(At(x, p)) {
      DigitEscapeIs(x, m, s, p, q, c);
    } else {
      EscapesRest(x, p, q, false, c);
    }
  }

  /** A character outside classes, but for the letter k behind a backslash. */
  lemma LiteralIs(x: Context, m: P.Modifiers, s: State, depth: nat, q: nat, c: nat)
    requires var p := s.position; At(x, p) == BACKSLASH ==> At(x, p + 1) != 0x6b
    requires At(x, s.position) !in {0x2a, 0x2b, 0x3f, 0x7c}
    requires At(x, s.position) == 0x7b && !x.unicode ==> !BraceQuantifier(x, s.position)
    ensures G.Literal(x, s.position, q, c) <==>
      Atom(x, m, s, depth) == Some((s.(position := q), true)) && AtomTree(x, m, s, depth) == P.Literal(c)
  {
    hide G.Escapes;
    hide Escape;
    hide EscapeTree;
    hide CharacterClass;
    hide Group;
    hide GroupTree;
    hide ClassOf;
    hide G.IsBraces;
    hide BraceQuantifier;
    var p := s.position;
    GlyphIs(x, p);
    IsBracesIs(x, p);
    StandsIs(x, p, q, c);
    if At(x, p) == BACKSLASH {
      EscapeIs(x, m, s, p + 1, q, c);
    } else if At(x, p) == OPEN && Atom(x, m, s, depth).Some? {
      GroupIsNoLiteral(x, m, s, depth);
    }
  }

  lemma GroupIsNoLiteral(x: Context, m: P.Modifiers, s: State, depth: nat)
    requires At(x, s.position) == OPEN && Atom(x, m, s, depth).Some?
    ensures !AtomTree(x, m, s, depth).Literal?
  {
    hide Disjunction;
    hide DisjunctionTree;
    hide GroupHead;
    hide Inner;
  }
}
