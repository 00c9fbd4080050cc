/** The prepass and the parser count the same groups in every pattern the parser accepts. */
module PrepassAgrees {
  import opened Basics
  import opened Characters
  import opened Prepass
  import opened ClassContents
  import opened Syntax
  import Pattern

  /** What a scan has found: the captures, whether one is named, and the names with their captures. */
  datatype Trail = Trail(captures: nat, named: bool, found: seq<(Name, nat)>)

  /** What is found with an opening parenthesis. */
  function Grown(x: Context, p: nat, so: Trail): Trail {
    if PlainGroup(x.units, p) then so.(captures := so.captures + 1)
    else if !NamedGroup(x.units, p) then so
    else
      var end := GroupName(x, p + 3, 0);
      Trail(so.captures + 1, true, so.found + (if end.Some? then [(NameAt(x, p + 3), so.captures)] else []))
  }

  /** The prepass with more of a memory. */
  function Trace(x: Context, p: nat, inside: bool, so: Trail): Trail
    decreases |x.units| - p
  {
    if p >= |x.units| || so.captures >= CAPTURE_COUNT_MAX then so
    else if x.units[p] == BACKSLASH then Trace(x, p + 2, inside, so)
    else if inside then Trace(x, p + 1, x.units[p] != CLOSE_CLASS, so)
    else if x.units[p] == OPEN then Trace(x, p + 1, false, Grown(x, p, so))
    else Trace(x, p + 1, x.units[p] == OPEN_CLASS, so)
  }

  lemma {:induction false} ScanIsTrace(x: Context, p: nat, inside: bool, so: Trail)
    ensures var end := Trace(x, p, inside, so);
            Scan(x.units, p, inside, Summary(so.captures, so.named)) == Summary(end.captures, end.named)
    decreases |x.units| - p
  {
    hide GroupName;
    hide NameFrom;
    if p < |x.units| && so.captures < CAPTURE_COUNT_MAX {
      if x.units[p] == BACKSLASH {
        ScanIsTrace(x, p + 2, inside, so);
      } else if inside {
        ScanIsTrace(x, p + 1, x.units[p] != CLOSE_CLASS, so);
      } else if x.units[p] == OPEN {
        ScanIsTrace(x, p + 1, false, Grown(x, p, so));
      } else {
        ScanIsTrace(x, p + 1, x.units[p] == OPEN_CLASS, so);
      }
    }
  }

  /** The scan does not care whether it starts at `p` or at `q`. */
  predicate Same(x: Context, p: nat, q: nat, inside: bool, so: Trail) {
    Trace(x, p, inside, so) == Trace(x, q, inside, so)
  }

  // ---- Units that mean nothing to the scan ----

  predicate Quiet(unit: int) {
    unit >= 0 && unit !in {BACKSLASH, OPEN, OPEN_CLASS, CLOSE_CLASS}
  }

  lemma QuietStep(x: Context, p: nat, inside: bool, so: Trail)
    requires Quiet(At(x, p))
    ensures p < |x.units| && Same(x, p, p + 1, inside, so)
  {
  }

  lemma {:induction false} QuietRun(x: Context, p: nat, q: nat, inside: bool, so: Trail)
    requires p <= q && forall i :: p <= i < q ==> Quiet(At(x, i))
    ensures Same(x, p, q, inside, so)
    decreases q - p
  {
    hide Trace;
    if p < q {
      QuietStep(x, p, inside, so);
      QuietRun(x, p + 1, q, inside, so);
    }
  }

  lemma EscapedStep(x: Context, p: nat, inside: bool, so: Trail)
    requires At(x, p) == BACKSLASH
    ensures Same(x, p, p + 2, inside, so)
  {
    assert so.captures >= CAPTURE_COUNT_MAX ==> Trace(x, p, inside, so) == so == Trace(x, p + 2, inside, so);
  }

  /** Inside a class only its end and escapes matter. */
  lemma InsideStep(x: Context, p: nat, so: Trail)
    requires At(x, p) != -1 && At(x, p) != CLOSE_CLASS && At(x, p) != BACKSLASH
    ensures Same(x, p, p + 1, true, so)
  {
  }

  lemma ClassEnds(x: Context, p: nat, inside: bool, so: Trail)
    requires At(x, p) == CLOSE_CLASS
    ensures Trace(x, p, inside, so) == Trace(x, p + 1, false, so)
  {
  }

  lemma ClassOpens(x: Context, p: nat, inside: bool, so: Trail)
    requires At(x, p) == OPEN_CLASS
    ensures Trace(x, p, inside, so) == Trace(x, p + 1, true, so)
  {
  }

  // ---- Escapes ----

  lemma FinishScan(x: Context, first: int, p: nat, inside: bool, so: Trail)
    ensures Same(x, p, FinishCodePoint(x, first, p), inside, so)
  {
    hide Trace;
    if FinishCodePoint(x, first, p) == p + 1 {
      QuietStep(x, p, inside, so);
    }
  }

  lemma HexEscapeScan(x: Context, p: nat, inside: bool, so: Trail)
    ensures var r := HexEscape(x, p); r.Some? ==> Same(x, p, r.value, inside, so)
  {
    hide Trace;
    if HexEscape(x, p) == Some(p + 2) {
      QuietRun(x, p, p + 2, inside, so);
    }
  }

  lemma FourHexScan(x: Context, p: nat, inside: bool, so: Trail)
    requires FourHex(x, p)
    ensures Same(x, p, p + 4, inside, so)
  {
    hide Trace;
    QuietRun(x, p, p + 4, inside, so);
  }

  /** A second escape that completes a surrogate pair. */
  lemma PairScan(x: Context, p: nat, inside: bool, so: Trail)
    requires FourHex(x, p) && At(x, p + 4) == BACKSLASH && FourHex(x, p + 6)
    ensures Same(x, p, p + 10, inside, so)
  {
    hide Trace;
    FourHexScan(x, p, inside, so);
    EscapedStep(x, p + 4, inside, so);
    FourHexScan(x, p + 6, inside, so);
  }

  lemma BracedScan(x: Context, p: nat, inside: bool, so: Trail)
    requires At(x, p) == 0x7b && At(x, HexEnd(x, p + 1)) == 0x7d
    ensures Same(x, p, HexEnd(x, p + 1) + 1, inside, so)
  {
    hide Trace;
    QuietStep(x, p, inside, so);
    QuietRun(x, p + 1, HexEnd(x, p + 1), inside, so);
    QuietStep(x, HexEnd(x, p + 1), inside, so);
  }

  lemma UnicodeEscapeScan(x: Context, p: nat, inside: bool, so: Trail)
    ensures var r := UnicodeEscape(x, p); r.Some? ==> Same(x, p, r.value, inside, so)
  {
    hide Trace;
    hide HexEnd;
    hide HexRunValue;
    hide FourHexValue;
    hide FourHex;
    var r := UnicodeEscape(x, p);
    if r.Some? {
      if x.unicode && At(x, p) == 0x7b {
        BracedScan(x, p, inside, so);
      } else if FourHex(x, p) {
        FourHexScan(x, p, inside, so);
        if r.value == p + 10 {
          PairScan(x, p, inside, so);
        }
      }
    }
  }

  lemma PropertyWordsScan(x: Context, p: nat, inside: bool, so: Trail)
    ensures var r := PropertyWords(x, p); r.Some? ==> Same(x, p, r.value.0, inside, so)
  {
    hide Trace;
    var r := PropertyWords(x, p);
    if r.Some? {
      var name := WordEnd(x, p + 1);
      QuietStep(x, p, inside, so);
      QuietRun(x, p + 1, name, inside, so);
      if At(x, name) == 0x3d {
        QuietStep(x, name, inside, so);
        QuietRun(x, name + 1, WordEnd(x, name + 1), inside, so);
      }
      QuietStep(x, r.value.0 - 1, inside, so);
    }
  }

  lemma LegacyOctalScan(x: Context, first: int, p: nat, inside: bool, so: Trail)
    ensures Same(x, p, LegacyOctal(x, first, p), inside, so)
  {
    hide Trace;
    QuietRun(x, p, LegacyOctal(x, first, p), inside, so);
  }

  /** A control escape, or the rewind to its letter: either way the scan has passed it. */
  lemma ControlScan(x: Context, backslash: nat, inClass: bool, inside: bool, so: Trail)
    requires At(x, backslash) == BACKSLASH && At(x, backslash + 1) == 0x63
    ensures var r := ControlEscape(x, backslash + 2, backslash, inClass); r.Some? ==> Same(x, backslash, r.value, inside, so)
  {
    hide Trace;
    EscapedStep(x, backslash, inside, so);
    QuietStep(x, backslash + 1, inside, so);
    var r := ControlEscape(x, backslash + 2, backslash, inClass);
    if r.Some? && r.value == backslash + 3 {
      QuietStep(x, backslash + 2, inside, so);
    }
  }

  // ---- Names ----

  lemma NameCharacterScan(x: Context, p: nat, length: nat, inside: bool, so: Trail)
    requires p < |x.units|
    ensures var c := NameCharacter(x, p);
            c.Some? && IsIdentifier(x, c.value.0, length == 0) ==> Same(x, p, c.value.1, inside, so)
  {
    hide Trace;
    hide HexEnd;
    hide HexRunValue;
    hide FourHexValue;
    hide FourHex;
    var c := NameCharacter(x, p);
    if c.Some? && IsIdentifier(x, c.value.0, length == 0) {
      if x.units[p] == BACKSLASH {
        EscapedStep(x, p, inside, so);
        if At(x, p + 2) == 0x7b {
          BracedScan(x, p + 2, inside, so);
        } else {
          FourHexScan(x, p + 2, inside, so);
          if c.value.1 == p + 12 {
            PairScan(x, p + 2, inside, so);
          }
        }
      } else {
        QuietStep(x, p, inside, so);
        if c.value.1 == p + 2 {
          QuietStep(x, p + 1, inside, so);
        }
      }
    }
  }

  lemma {:induction false} GroupNameScan(x: Context, p: nat, length: nat, inside: bool, so: Trail)
    ensures var r := GroupName(x, p, length); r.Some? ==> Same(x, p, r.value, inside, so)
    decreases |x.units| - p
  {
    hide Trace;
    hide NameCharacter;
    hide IsIdentifier;
    if GroupName(x, p, length).Some? {
      if x.units[p] == 0x3e {
        QuietStep(x, p, inside, so);
      } else {
        var c := NameCharacter(x, p).value;
        NameCharacterScan(x, p, length, inside, so);
        GroupNameScan(x, c.1, length + Utf8Length(c.0), inside, so);
      }
    }
  }

  // ---- Classes ----

  lemma ClassAtomScan(x: Context, ignoreCase: bool, p: nat, so: Trail)
    requires At(x, p) != CLOSE_CLASS
    ensures var r := ClassAtom(x, ignoreCase, p); r.Some? ==> Same(x, p, r.value.0, true, so)
  {
    hide Trace;
    hide PropertyWords;
    hide FoundProperty;
    hide PropertySet;
    hide HexEscape;
    hide UnicodeEscape;
    hide LegacyOctal;
    hide ControlEscape;
    hide FinishCodePoint;
    var unit := At(x, p);
    if ClassAtom(x, ignoreCase, p).Some? {
      if unit != BACKSLASH {
        InsideStep(x, p, so);
        FinishScan(x, unit, p + 1, true, so);
      } else {
        EscapedStep(x, p, true, so);
        EscapesScan(x, At(x, p + 1), p + 2, true, so);
        if At(x, p + 1) == 0x63 {
          ControlScan(x, p, true, true, so);
        }
      }
    }
  }

  /** The escapes shared by all places, from after the escaped letter. */
  lemma EscapesScan(x: Context, first: int, p: nat, inside: bool, so: Trail)
    ensures PropertyWords(x, p).Some? ==> Same(x, p, PropertyWords(x, p).value.0, inside, so)
    ensures HexEscape(x, p).Some? ==> Same(x, p, HexEscape(x, p).value, inside, so)
    ensures UnicodeEscape(x, p).Some? ==> Same(x, p, UnicodeEscape(x, p).value, inside, so)
    ensures Same(x, p, LegacyOctal(x, first, p), inside, so)
    ensures Same(x, p, FinishCodePoint(x, first, p), inside, so)
  {
    hide Trace;
    hide PropertyWords;
    hide FoundProperty;
    hide PropertySet;
    hide HexEscape;
    hide UnicodeEscape;
    hide LegacyOctal;
    hide FinishCodePoint;
    PropertyWordsScan(x, p, inside, so);
    HexEscapeScan(x, p, inside, so);
    UnicodeEscapeScan(x, p, inside, so);
    LegacyOctalScan(x, first, p, inside, so);
    FinishScan(x, first, p, inside, so);
  }

  lemma ClassEntryScan(x: Context, ignoreCase: bool, p: nat, so: Trail)
    requires At(x, p) != CLOSE_CLASS
    ensures var r := ClassEntry(x, ignoreCase, p); r.Some? ==> Same(x, p, r.value.0, true, so)
  {
    hide Trace;
    hide ClassAtom;
    hide ItemCharacters;
    hide RangeCharacters;
    if ClassEntry(x, ignoreCase, p).Some? {
      var q := ClassAtom(x, ignoreCase, p).value.0;
      ClassAtomScan(x, ignoreCase, p, so);
      if At(x, q) == 0x2d && At(x, q + 1) != CLOSE_CLASS {
        QuietStep(x, q, true, so);
        ClassAtomScan(x, ignoreCase, q + 1, so);
      }
    }
  }

  lemma {:induction false} ClassItemsScan(x: Context, ignoreCase: bool, p: nat, held: iset<CodePoint>, so: Trail)
    ensures var r := ClassItems(x, ignoreCase, p, held);
            r.Some? ==> Trace(x, p, true, so) == Trace(x, r.value.0, false, so)
    decreases |x.units| - p
  {
    hide Trace;
    hide ClassEntry;
    if ClassItems(x, ignoreCase, p, held).Some? {
      if At(x, p) == CLOSE_CLASS {
        ClassEnds(x, p, true, so);
      } else {
        ClassEntryScan(x, ignoreCase, p, so);
        var (q, added) := ClassEntry(x, ignoreCase, p).value;
        ClassItemsScan(x, ignoreCase, q, held + added, so);
      }
    }
  }

  // ---- Classes with set notation: the scan may think it is inside or outside ----

  lemma {:induction false} SetAtomScan(x: Context, ignoreCase: bool, p: nat, inClass: bool, allowSets: bool, inside: bool,
                                       so: Trail)
    ensures var r := SetAtom(x, ignoreCase, p, inClass, allowSets); r.Some? ==> Same(x, p, r.value.0, inside, so)
    decreases |x.units| - p, 1
  {
    hide Trace;
    hide PropertyWords;
    hide FoundProperty;
    hide PropertySet;
    hide HexEscape;
    hide UnicodeEscape;
    hide LegacyOctal;
    hide ControlEscape;
    hide FinishCodePoint;
    var unit := At(x, p);
    if SetAtom(x, ignoreCase, p, inClass, allowSets).Some? {
      if unit != BACKSLASH {
        QuietStep(x, p, inside, so);
        FinishScan(x, unit, p + 1, inside, so);
      } else {
        EscapedStep(x, p, inside, so);
        EscapesScan(x, At(x, p + 1), p + 2, inside, so);
        if At(x, p + 1) == 0x63 {
          ControlScan(x, p, inClass, inside, so);
        } else if allowSets && inClass && At(x, p + 1) == 0x71 {
          QuietStep(x, p + 2, inside, so);
          SetStringsScan(x, ignoreCase, p + 3, [], NOTHING, inside, so);
        }
      }
    }
  }

  lemma {:induction false} SetStringsScan(x: Context, ignoreCase: bool, p: nat, s: Text, held: ClassSet, inside: bool, so: Trail)
    ensures var r := SetStrings(x, ignoreCase, p, s, held); r.Some? ==> Same(x, p, r.value.0, inside, so)
    decreases |x.units| - p, 2
  {
    hide Trace;
    hide SetAtom;
    hide WithText;
    if SetStrings(x, ignoreCase, p, s, held).Some? {
      if At(x, p) == 0x7d {
        QuietStep(x, p, inside, so);
      } else if At(x, p) == 0x7c {
        QuietStep(x, p, inside, so);
        SetStringsScan(x, ignoreCase, p + 1, [], WithText(x, ignoreCase, s, held), inside, so);
      } else {
        SetAtomScan(x, ignoreCase, p, false, false, inside, so);
        var (q, item) := SetAtom(x, ignoreCase, p, false, false).value;
        SetStringsScan(x, ignoreCase, q, s + [item.value], held, inside, so);
      }
    }
  }

  /** A whole class leaves the scan outside. */
  lemma {:induction false} SetClassScan(x: Context, ignoreCase: bool, p: nat, depth: nat, so: Trail)
    ensures var r := SetClass(x, ignoreCase, p, depth);
            r.Some? ==> Trace(x, p, true, so) == Trace(x, r.value.0, false, so)
    decreases |x.units| - p, 4
  {
    hide Trace;
    hide SetItems;
    if SetClass(x, ignoreCase, p, depth).Some? {
      if At(x, p) == 0x5e {
        QuietStep(x, p, true, so);
        SetItemsScan(x, ignoreCase, p + 1, depth + 1, true, NOTHING, true, so);
      } else {
        SetItemsScan(x, ignoreCase, p, depth + 1, true, NOTHING, true, so);
      }
    }
  }

  lemma {:induction false} SetOperandScan(x: Context, ignoreCase: bool, p: nat, depth: nat, inside: bool, so: Trail)
    returns (after: bool)
    ensures var r := SetOperand(x, ignoreCase, p, depth);
            r.Some? ==> Trace(x, p, inside, so) == Trace(x, r.value.0, after, so)
    decreases |x.units| - p, 3
  {
    hide Trace;
    hide SetClass;
    hide SetAtom;
    hide ItemSet;
    after := inside;
    if SetOperand(x, ignoreCase, p, depth).Some? {
      if At(x, p) == OPEN_CLASS {
        ClassOpens(x, p, inside, so);
        SetClassScan(x, ignoreCase, p + 1, depth, so);
        after := false;
      } else {
        SetAtomScan(x, ignoreCase, p, true, true, inside, so);
      }
    }
  }

  lemma {:induction false} SetChainScan(x: Context, ignoreCase: bool, p: nat, depth: nat, operator: int, held: ClassSet,
                                        inside: bool, so: Trail) returns (after: bool)
    requires operator in {0x26, 0x2d}
    ensures var r := SetChain(x, ignoreCase, p, depth, operator, held);
            r.Some? ==> Trace(x, p, inside, so) == Trace(x, r.value.0, after, so)
    decreases |x.units| - p, 4
  {
    hide Trace;
    hide SetOperand;
    hide Intersect;
    hide Subtract;
    after := inside;
    if SetChain(x, ignoreCase, p, depth, operator, held).Some? && At(x, p) != CLOSE_CLASS {
      QuietStep(x, p, inside, so);
      QuietStep(x, p + 1, inside, so);
      var middle := SetOperandScan(x, ignoreCase, p + 2, depth, inside, so);
      var (q, operand) := SetOperand(x, ignoreCase, p + 2, depth).value;
      var next := if operator == 0x26 then Intersect(held, operand) else Subtract(held, operand);
      after := SetChainScan(x, ignoreCase, q, depth, operator, next, middle, so);
    }
  }

  lemma {:induction false} SetItemScan(x: Context, ignoreCase: bool, p: nat, depth: nat, inside: bool, so: Trail)
    returns (after: bool)
    ensures var r := SetItem(x, ignoreCase, p, depth);
            r.Some? ==> Trace(x, p, inside, so) == Trace(x, r.value.0, after, so)
    decreases |x.units| - p, 2
  {
    hide Trace;
    hide SetClass;
    hide SetAtom;
    hide ItemSet;
    after := inside;
    if SetItem(x, ignoreCase, p, depth).Some? {
      if At(x, p) == OPEN_CLASS {
        ClassOpens(x, p, inside, so);
        SetClassScan(x, ignoreCase, p + 1, depth, so);
        after := false;
      } else {
        SetAtomScan(x, ignoreCase, p, true, true, inside, so);
      }
    }
  }

  lemma {:induction false} SetItemsScan(x: Context, ignoreCase: bool, p: nat, depth: nat, first: bool, held: ClassSet,
                                        inside: bool, so: Trail)
    ensures var r := SetItems(x, ignoreCase, p, depth, first, held);
            r.Some? ==> Trace(x, p, inside, so) == Trace(x, r.value.0, false, so)
    decreases |x.units| - p, 3
  {
    hide Trace;
    hide SetItem;
    hide AfterItem;
    if SetItems(x, ignoreCase, p, depth, first, held).Some? {
      if At(x, p) == CLOSE_CLASS {
        ClassEnds(x, p, inside, so);
      } else {
        var nested := At(x, p) == OPEN_CLASS;
        var middle := SetItemScan(x, ignoreCase, p, depth, inside, so);
        var (q, scalar, item) := SetItem(x, ignoreCase, p, depth).value;
        var after := AfterItemScan(x, ignoreCase, p, q, scalar, item, nested, depth, first, held, middle, so);
        var (end, next) := AfterItem(x, ignoreCase, p, q, scalar, item, nested, depth, first, held).value;
        SetItemsScan(x, ignoreCase, end, depth, false, next, after, so);
      }
    }
  }

  lemma {:induction false} AfterItemScan(x: Context, ignoreCase: bool, p: nat, q: nat, scalar: Option<CodePoint>, item: ClassSet,
                                         nested: bool, depth: nat, first: bool, held: ClassSet, inside: bool, so: Trail)
    returns (after: bool)
    requires p < q && p < |x.units|
    ensures var r := AfterItem(x, ignoreCase, p, q, scalar, item, nested, depth, first, held);
            r.Some? ==> Trace(x, q, inside, so) == Trace(x, r.value.0, after, so)
    decreases |x.units| - p, 0
  {
    hide Trace;
    hide SetAtom;
    hide SetChain;
    hide Unite;
    hide Folded;
    after := inside;
    if AfterItem(x, ignoreCase, p, q, scalar, item, nested, depth, first, held).Some? {
      var subtraction := At(x, q) == 0x2d && At(x, q + 1) == 0x2d;
      if !nested && At(x, q) == 0x2d && At(x, q + 1) != CLOSE_CLASS && !(subtraction && first) {
        QuietStep(x, q, inside, so);
        SetAtomScan(x, ignoreCase, q + 1, true, true, inside, so);
      } else if first && At(x, q) == 0x26 && At(x, q + 1) == 0x26 && At(x, q + 2) != 0x26 {
        after := SetChainScan(x, ignoreCase, q, depth, 0x26, Unite(held, item), inside, so);
      } else if first && subtraction {
        after := SetChainScan(x, ignoreCase, q, depth, 0x2d, Unite(held, item), inside, so);
      }
    }
  }

  lemma CharacterClassScan(x: Context, ignoreCase: bool, p: nat, depth: nat, so: Trail)
    ensures var r := CharacterClass(x, ignoreCase, p, depth);
            r.Some? ==> Trace(x, p, true, so) == Trace(x, r.value.0, false, so)
  {
    hide Trace;
    hide SetClass;
    hide ClassItems;
    if x.sets {
      SetClassScan(x, ignoreCase, p, depth, so);
    } else if At(x, p) == 0x5e {
      QuietStep(x, p, true, so);
      ClassItemsScan(x, ignoreCase, p + 1, iset{}, so);
    } else {
      ClassItemsScan(x, ignoreCase, p, iset{}, so);
    }
  }

  // ---- Terms ----

  lemma DigitsScan(x: Context, p: nat, so: Trail)
    ensures Same(x, p, DigitsEnd(x, p), false, so)
  {
    hide Trace;
    QuietRun(x, p, DigitsEnd(x, p), false, so);
  }

  lemma NamedReferenceScan(x: Context, s: State, p: nat, so: Trail)
    ensures var r := NamedReference(x, s, p);
            r.Some? ==> Same(x, p, r.value.position, false, so) && Counts(r.value) == Counts(s)
  {
    hide Trace;
    hide GroupName;
    hide NameFrom;
    hide Matching;
    hide Resolve;
    var r := NamedReference(x, s, p);
    if r.Some? && r.value.position != p {
      QuietStep(x, p, false, so);
      GroupNameScan(x, p + 1, 0, false, so);
    }
  }

  function Pairs(names: seq<Entry>): seq<(Name, nat)> {
    seq(|names|, i requires 0 <= i < |names| => (names[i].name, names[i].capture))
  }

  /** What the parser has found in a state. */
  function Counts(s: State): Trail {
    Trail(s.captures, s.names != [], Pairs(s.names))
  }

  lemma EscapeScan(x: Context, m: Pattern.Modifiers, s: State, p: nat, so: Trail)
    requires At(x, p) == BACKSLASH
    ensures var r := Escape(x, m, s, p + 1);
            r.Some? ==> Same(x, p, r.value.0.position, false, so) && Counts(r.value.0) == Counts(s)
  {
    hide Trace;
    hide PropertyWords;
    hide FoundProperty;
    hide PropertySet;
    hide HexEscape;
    hide UnicodeEscape;
    hide LegacyOctal;
    hide ControlEscape;
    hide FinishCodePoint;
    hide NamedReference;
    hide DigitsEnd;
    hide DecimalReference;
    EscapedStep(x, p, false, so);
    EscapesScan(x, At(x, p + 1), p + 2, false, so);
    NamedReferenceScan(x, s, p + 2, so);
    DigitsScan(x, p + 2, so);
    if At(x, p + 1) == 0x63 {
      ControlScan(x, p, false, false, so);
    }
  }

  lemma QuantifierScan(x: Context, p: nat, so: Trail)
    ensures var r := Quantifier(x, p); r.Some? ==> Same(x, p, r.value.0, false, so)
  {
    hide Trace;
    hide DigitsEnd;
    var r := Quantifier(x, p);
    if r.Some? && r.value.1.Some? {
      QuietStep(x, p, false, so);
      if At(x, p) == 0x7b {
        var minimum := DigitsEnd(x, p + 1);
        DigitsScan(x, p + 1, so);
        if At(x, minimum) == 0x2c {
          QuietStep(x, minimum, false, so);
          DigitsScan(x, minimum + 1, so);
        }
        var end := if At(x, minimum) == 0x2c then DigitsEnd(x, minimum + 1) else minimum;
        QuietStep(x, end, false, so);
        GreedinessScan(x, end + 1, so);
      } else {
        GreedinessScan(x, p + 1, so);
      }
    }
  }

  lemma GreedinessScan(x: Context, p: nat, so: Trail)
    ensures Same(x, p, Greediness(x, p), false, so)
  {
    hide Trace;
    if At(x, p) == QUESTION {
      QuietStep(x, p, false, so);
    }
  }

  lemma {:induction false} ModifiersScan(x: Context, p: nat, seen: set<int>, so: Trail)
    ensures var r := Modifiers(x, p, seen); r.Some? ==> Same(x, p, r.value.0, false, so)
    decreases |x.units| - p
  {
    hide Trace;
    if Modifiers(x, p, seen).Some? && At(x, p) in {0x69, 0x6d, 0x73} {
      QuietStep(x, p, false, so);
      ModifiersScan(x, p + 1, seen + {At(x, p)}, so);
    }
  }

  lemma ModifierHeadScan(x: Context, p: nat, so: Trail)
    ensures var r := ModifierHead(x, p); r.Some? ==> Same(x, p, r.value, false, so)
  {
    hide Trace;
    hide Modifiers;
    if ModifierHead(x, p).Some? {
      var q := Modifiers(x, p, {}).value.0;
      ModifiersScan(x, p, {}, so);
      if At(x, q) == 0x2d {
        QuietStep(x, q, false, so);
        ModifiersScan(x, q + 1, {}, so);
      }
      QuietStep(x, ModifierHead(x, p).value - 1, false, so);
    }
  }

  /** How the scan steps over an opening parenthesis. */
  lemma OpenStep(x: Context, p: nat, so: Trail)
    requires At(x, p) == OPEN && so.captures < CAPTURE_COUNT_MAX
    ensures Trace(x, p, false, so) == Trace(x, p + 1, false, Grown(x, p, so))
  {
    hide GroupName;
    hide NameFrom;
  }

  /** The parser finds the same with the head of a group. */
  lemma HeadOpens(x: Context, s: State, p: nat)
    requires At(x, p) == OPEN
    ensures var r := GroupHead(x, s, p + 1); r.Some? ==> Counts(r.value) == Grown(x, p, Counts(s))
  {
    hide GroupName;
    hide NameFrom;
    hide ModifierHead;
    hide Duplicate;
    var r := GroupHead(x, s, p + 1);
    if r.Some? && NamedGroup(x.units, p) {
      assert Pairs(r.value.names) == Pairs(s.names) + [(NameAt(x, p + 3), s.captures)];
    }
  }

  /** Once the limit is reached the scan has stopped. */
  lemma Stopped(x: Context, p: nat, q: nat, inside: bool, so: Trail)
    requires so.captures >= CAPTURE_COUNT_MAX
    ensures Same(x, p, q, inside, so)
  {
  }

  lemma GroupHeadScan(x: Context, s: State, p: nat)
    requires At(x, p) == OPEN
    ensures var r := GroupHead(x, s, p + 1);
            r.Some? ==> Trace(x, p, false, Counts(s)) == Trace(x, r.value.position, false, Counts(r.value))
  {
    hide Trace;
    hide GroupName;
    hide ModifierHead;
    var r := GroupHead(x, s, p + 1);
    if r.Some? {
      if s.captures >= CAPTURE_COUNT_MAX {
        Stopped(x, p, r.value.position, false, Counts(s));
      } else {
        OpenStep(x, p, Counts(s));
        HeadOpens(x, s, p);
        if At(x, p + 1) == QUESTION {
          HeadScan(x, s, p);
        }
      }
    }
  }

  /** The rest of a group's head after its question mark. */
  lemma HeadScan(x: Context, s: State, p: nat)
    requires At(x, p) == OPEN && At(x, p + 1) == QUESTION
    ensures var r := GroupHead(x, s, p + 1); r.Some? ==> Same(x, p + 1, r.value.position, false, Counts(r.value))
  {
    hide Trace;
    hide GroupName;
    hide ModifierHead;
    var r := GroupHead(x, s, p + 1);
    if r.Some? {
      var so := Counts(r.value);
      QuietStep(x, p + 1, false, so);
      if At(x, p + 2) in {0x3a, 0x3d, 0x21} {
        QuietStep(x, p + 2, false, so);
      } else if At(x, p + 2) == LESS {
        QuietStep(x, p + 2, false, so);
        if At(x, p + 3) in {0x3d, 0x21} {
          QuietStep(x, p + 3, false, so);
        } else {
          GroupNameScan(x, p + 3, 0, false, so);
        }
      } else {
        ModifierHeadScan(x, p + 2, so);
      }
    }
  }

  // ---- The parser as a whole ----

  /** From one state of the parser to another the scan stays in step. */
  ghost predicate InStep(x: Context, s: State, s': State) {
    Trace(x, s.position, false, Counts(s)) == Trace(x, s'.position, false, Counts(s'))
  }

  lemma LiteralScan(x: Context, s: State)
    requires At(x, s.position) !in {-1, OPEN, CLOSE, OPEN_CLASS, BACKSLASH}
    ensures InStep(x, s, s.(position := FinishCodePoint(x, At(x, s.position), s.position + 1)))
  {
    hide FinishCodePoint;
    var p, so := s.position, Counts(s);
    FinishScan(x, At(x, p), p + 1, false, so);
    assert Trace(x, p, false, so) == Trace(x, p + 1, false, so);
  }

  lemma {:induction false} AtomScan(x: Context, m: Pattern.Modifiers, s: State, depth: nat)
    ensures var r := Atom(x, m, s, depth); r.Some? ==> InStep(x, s, r.value.0)
    decreases |x.units| - s.position, 0
  {
    hide Trace;
    hide Group;
    hide CharacterClass;
    hide Escape;
    hide FinishCodePoint;
    var p, so := s.position, Counts(s);
    if Atom(x, m, s, depth).Some? {
      var unit := At(x, p);
      if unit == OPEN {
        GroupScan(x, m, s, depth);
      } else if unit == OPEN_CLASS {
        ClassOpens(x, p, false, so);
        CharacterClassScan(x, m.ignoreCase, p + 1, depth, so);
      } else if unit == BACKSLASH {
        EscapeScan(x, m, s, p, so);
      } else if unit in {0x2e, 0x5e, 0x24} {
        QuietStep(x, p, false, so);
      } else {
        LiteralScan(x, s);
      }
    }
  }

  lemma {:induction false} GroupScan(x: Context, m: Pattern.Modifiers, s: State, depth: nat)
    requires At(x, s.position) == OPEN
    ensures var r := Group(x, m, s, s.position + 1, depth); r.Some? ==> InStep(x, s, r.value)
    decreases |x.units| - s.position - 1, 4
  {
    hide Trace;
    hide GroupHead;
    hide Disjunction;
    hide Inner;
    var p := s.position;
    if Group(x, m, s, p + 1, depth).Some? {
      var head := GroupHead(x, s, p + 1).value;
      GroupHeadScan(x, s, p);
      DisjunctionScan(x, Inner(x, m, p + 1), head, true, depth + 1);
      var body := Disjunction(x, Inner(x, m, p + 1), head, true, depth + 1).value;
      QuietStep(x, body.position, false, Counts(body));
    }
  }

  lemma {:induction false} DisjunctionScan(x: Context, m: Pattern.Modifiers, s: State, inGroup: bool, depth: nat)
    ensures var r := Disjunction(x, m, s, inGroup, depth); r.Some? ==> InStep(x, s, r.value)
    decreases |x.units| - s.position, 3
  {
    hide Trace;
    hide Sequence;
    if Disjunction(x, m, s, inGroup, depth).Some? {
      var sequence := Sequence(x, m, s, inGroup, depth).value;
      SequenceScan(x, m, s, inGroup, depth);
      if At(x, sequence.position) == 0x7c {
        QuietStep(x, sequence.position, false, Counts(sequence));
        DisjunctionScan(x, m, NextAlternative(sequence), inGroup, depth);
      }
    }
  }

  lemma {:induction false} SequenceScan(x: Context, m: Pattern.Modifiers, s: State, inGroup: bool, depth: nat)
    ensures var r := Sequence(x, m, s, inGroup, depth); r.Some? ==> InStep(x, s, r.value)
    decreases |x.units| - s.position, 2
  {
    hide Trace;
    hide Atom;
    hide Quantifier;
    hide BraceQuantifier;
    var unit := At(x, s.position);
    if Sequence(x, m, s, inGroup, depth).Some? && !(unit == -1 || unit == 0x7c || (inGroup && unit == CLOSE)) {
      AtomScan(x, m, s, depth);
      var (after, quantifiable) := Atom(x, m, s, depth).value;
      if !quantifiable && At(x, after.position) == 0x7b {
        SequenceScan(x, m, after, inGroup, depth);
      } else {
        QuantifierScan(x, after.position, Counts(after));
        var (p, quantifier) := Quantifier(x, after.position).value;
        SequenceScan(x, m, Quantified(s, after, p, quantifier), inGroup, depth);
      }
    }
  }

  /** A scan with memory finds the named groups of the parser, each with its capture. */
  lemma TraceIsExact(x: Context, m: Pattern.Modifiers)
    requires Parse(x, m).Some?
    ensures Trace(x, 0, false, Trail(1, false, [])) == Counts(Parse(x, m).value)
  {
    hide Disjunction;
    DisjunctionScan(x, m, START, false, 0);
    assert Pairs([]) == [];
  }

  /** The prepass finds the parser's final capture count and whether any group is named. */
  lemma PrepassIsExact(x: Context, m: Pattern.Modifiers)
    requires Parse(x, m).Some?
    ensures var s := Parse(x, m).value; Scan(x.units, 0, false, Summary(1, false)) == Summary(s.captures, s.names != [])
  {
    hide Disjunction;
    hide Trace;
    hide Scan;
    TraceIsExact(x, m);
    ScanIsTrace(x, 0, false, Trail(1, false, []));
  }

  lemma {:induction false} ScanBounds(units: seq<Unit>, p: nat, inside: bool, so: Summary)
    requires so.captures <= CAPTURE_COUNT_MAX
    ensures so.captures <= Scan(units, p, inside, so).captures <= CAPTURE_COUNT_MAX
    decreases |units| - p
  {
    if p < |units| && so.captures < CAPTURE_COUNT_MAX {
      if units[p] == BACKSLASH {
        ScanBounds(units, p + 2, inside, so);
      } else if inside {
        ScanBounds(units, p + 1, units[p] != CLOSE_CLASS, so);
      } else if units[p] == OPEN {
        ScanBounds(units, p + 1, false,
                   if PlainGroup(units, p) then so.(captures := so.captures + 1)
                   else if NamedGroup(units, p) then Summary(so.captures + 1, true) else so);
      } else {
        ScanBounds(units, p + 1, units[p] == OPEN_CLASS, so);
      }
    }
  }
}
