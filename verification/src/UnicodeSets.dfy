/** The parser's sets of ranges and strings: each operation computes the contents that the class denotes. */
module UnicodeSets {
  import opened Basics
  import opened CharacterRanges
  import opened RangeAlgebra
  import opened ClassContents
  import opened Syntax
  import P = Pattern

  datatype UnicodeSet = UnicodeSet(ranges: seq<CharacterRange>, strings: seq<Text>)

  ghost predicate Holds(u: UnicodeSet, set_: ClassSet) {
    Hold(u.ranges, set_.characters) && u.strings == set_.strings
  }

  datatype ParsedItem =
    | Character(value: CodePoint)
    | Set(ranges: Table)
    | ComplementSet(ranges: Table)
    | PreparedSet(set_: UnicodeSet)

  ghost predicate Shows(parsed: ParsedItem, item: ClassItem) {
    match parsed
    case Character(value) => item == Single(value)
    case Set(ranges) => item == Escaped(ranges)
    case ComplementSet(ranges) => item == Complemented(ranges)
    case PreparedSet(u) => item.Prepared? && Holds(u, item.set_)
  }

  // ---- Ranges ----

  lemma HoldRanges(ranges: seq<CharacterRange>)
    requires CodePoints(ranges)
    ensures Hold(ranges, CharactersOf(ranges))
  {
    MembersAreCodePoints(ranges);
  }

  lemma HoldRange(start: CodePoint, end: CodePoint)
    requires start <= end
    ensures Hold([CharacterRange(start, end)], Interval(start, end))
  {
    HoldRanges([CharacterRange(start, end)]);
  }

  lemma MembersAreCodePoints(ranges: seq<CharacterRange>)
    requires CodePoints(ranges)
    ensures forall c: nat :: Member(ranges, c) ==> c <= MAX_CODE_POINT
  {
  }

  lemma DenotedIsRanges(ranges: seq<CharacterRange>, characters: iset<CodePoint>)
    requires Denote(ranges, characters)
    ensures ranges == Ranges(characters)
  {
    SameRanges(ranges, Ranges(characters));
  }

  method Normalize(ranges: seq<CharacterRange>, ghost characters: iset<CodePoint>) returns (r: seq<CharacterRange>)
    requires Hold(ranges, characters)
    ensures Denote(r, characters)
  {
    hide Member;
    r := NormalizeRanges(ranges);
  }

  /** Every character of every range is folded. */
  method CanonicalizeRanges(f: CodePoint -> CodePoint, ranges: seq<CharacterRange>, ghost characters: iset<CodePoint>)
    returns (r: seq<CharacterRange>)
    requires Hold(ranges, characters)
    ensures Denote(r, Image(f, characters))
  {
    hide Member;
    var folded: seq<CharacterRange> := [];
    Nothing();
    assert ranges[..0] == [];
    for i := 0 to |ranges|
      invariant CodePoints(folded)
      invariant forall c: nat :: Member(folded, c) <==> exists d: CodePoint :: Member(ranges[..i], d) && f(d) == c
    {
      folded := FoldRange(f, ranges[i], folded, ranges[..i]);
      NextRange(ranges, i);
    }
    assert ranges[..|ranges|] == ranges;
    r := Normalize(folded, Image(f, characters));
  }

  lemma NextRange(ranges: seq<CharacterRange>, i: nat)
    requires i < |ranges|
    ensures forall d: nat :: Member(ranges[..i + 1], d) <==> Member(ranges[..i], d) || Covers(ranges[i], d)
  {
    forall d: nat
      ensures Member(ranges[..i + 1], d) <==> Member(ranges[..i], d) || Covers(ranges[i], d)
    {
      MemberNext(ranges, i, d);
    }
  }

  method FoldRange(f: CodePoint -> CodePoint, range: CharacterRange, so: seq<CharacterRange>, ghost before: seq<CharacterRange>)
    returns (r: seq<CharacterRange>)
    requires range.start <= range.end <= MAX_CODE_POINT && CodePoints(so)
    requires forall c: nat :: Member(so, c) <==> exists d: CodePoint :: Member(before, d) && f(d) == c
    ensures CodePoints(r)
    ensures forall c: nat :: Member(r, c) <==> exists d: CodePoint :: (Member(before, d) || Covers(range, d)) && f(d) == c
  {
    hide Member;
    r := so;
    for next := range.start to range.end + 1
      invariant CodePoints(r)
      invariant forall c: nat :: Member(r, c) <==>
        exists d: CodePoint :: (Member(before, d) || (Covers(range, d) && d < next)) && f(d) == c
    {
      var value := f(next);
      ghost var earlier := r;
      r := r + [CharacterRange(value, value)];
      forall c: nat
        ensures Member(r, c) <==> Member(earlier, c) || c == value
      {
        MemberLast(earlier, CharacterRange(value, value), c);
      }
    }
  }

  method FoldedRanges(x: Context, ignoreCase: bool, ranges: seq<CharacterRange>, ghost characters: iset<CodePoint>)
    returns (r: seq<CharacterRange>)
    requires Hold(ranges, characters)
    ensures Denote(r, Folded(x, ignoreCase, characters))
  {
    if ignoreCase {
      r := CanonicalizeRanges(Folding(x), ranges, characters);
    } else {
      r := Normalize(ranges, characters);
    }
  }

  method Complement(ranges: seq<CharacterRange>, max: CodePoint, ghost characters: iset<CodePoint>)
    returns (r: seq<CharacterRange>)
    requires Denote(ranges, characters) && forall c :: c in characters ==> c <= max
    ensures Denote(r, Outside(characters, max))
  {
    hide Member;
    EndsBelow(ranges, max + 1);
    r := ComplementRanges(ranges, max);
    EndsBelow(r, max + 1);
  }

  /** Ranges that start within the limit, cut off there. */
  method Clamp(ranges: seq<CharacterRange>, max: CodePoint, ghost characters: iset<CodePoint>) returns (r: seq<CharacterRange>)
    requires Hold(ranges, characters)
    ensures Hold(r, characters * Interval(0, max))
  {
    hide Member;
    r := [];
    Nothing();
    assert ranges[..0] == [];
    for i := 0 to |ranges|
      invariant CodePoints(r) && forall c: nat :: Member(r, c) <==> Member(ranges[..i], c) && c <= max
    {
      NextRange(ranges, i);
      if ranges[i].start <= max {
        ghost var before := r;
        var cut := CharacterRange(ranges[i].start, Min(ranges[i].end, max));
        r := r + [cut];
        forall c: nat
          ensures Member(r, c) <==> Member(before, c) || Covers(cut, c)
        {
          MemberLast(before, cut, c);
        }
      }
    }
    assert ranges[..|ranges|] == ranges;
    HoldInterval(0, max);
  }

  lemma HoldInterval(start: CodePoint, end: CodePoint)
    ensures forall c: CodePoint :: c in Interval(start, end) <==> start <= c <= end
  {
    forall c: CodePoint
      ensures c in Interval(start, end) <==> start <= c <= end
    {
      var range := CharacterRange(start, end);
      assert [range][0] == range;
      assert Member([range], c) <==> start <= c <= end;
    }
  }

  /** Folding leaves the characters of a mode within that mode. */
  lemma FoldedWithin(x: Context, ignoreCase: bool, characters: iset<CodePoint>)
    requires forall c :: c in characters ==> c <= MaxCharacter(x)
    ensures forall c :: c in Folded(x, ignoreCase, characters) ==> c <= MaxCharacter(x)
  {
  }

  // ---- Items ----

  /** What an item adds to a class without set notation. */
  method ItemRanges(x: Context, ignoreCase: bool, parsed: ParsedItem, ghost item: ClassItem) returns (r: seq<CharacterRange>)
    requires Shows(parsed, item)
    ensures Hold(r, ItemCharacters(x, ignoreCase, item))
  {
    hide Hold;
    hide Folded;
    hide Interval;
    var max := MaxCharacter(x);
    HoldInterval(0, max);
    match parsed
    case Character(value) =>
      HoldRange(value, value);
      r := Clamp([CharacterRange(value, value)], max, Interval(value, value));
      r := FoldedRanges(x, ignoreCase, r, Interval(value, value) * Interval(0, max));
    case Set(ranges) =>
      HoldRanges(ranges);
      r := Clamp(ranges, max, CharactersOf(ranges));
      r := FoldedRanges(x, ignoreCase, r, CharactersOf(ranges) * Interval(0, max));
    case ComplementSet(ranges) =>
      HoldRanges(ranges);
      r := Clamp(ranges, max, CharactersOf(ranges));
      ghost var clamped := CharactersOf(ranges) * Interval(0, max);
      r := FoldedRanges(x, ignoreCase, r, clamped);
      FoldedWithin(x, ignoreCase, clamped);
      r := Complement(r, max, Folded(x, ignoreCase, clamped));
    case PreparedSet(set_) =>
      r := Clamp(set_.ranges, max, item.set_.characters);
      r := Normalize(r, item.set_.characters * Interval(0, max));
  }

  lemma HoldJoin(a: seq<CharacterRange>, b: seq<CharacterRange>, left: iset<CodePoint>, right: iset<CodePoint>)
    requires Hold(a, left) && Hold(b, right)
    ensures Hold(a + b, left + right)
  {
    hide Member;
    forall c: nat
      ensures Member(a + b, c) <==> Member(a, c) || Member(b, c)
    {
      MemberJoin(a, b, c);
    }
  }

  /** Two items with a dash between them. */
  method RangeOfItems(x: Context, ignoreCase: bool, a: ParsedItem, b: ParsedItem, ghost first: ClassItem, ghost second: ClassItem)
    returns (r: Option<seq<CharacterRange>>)
    requires Shows(a, first) && Shows(b, second)
    ensures var range := RangeCharacters(x, ignoreCase, first, second);
            (r.Some? <==> range.Some?) && (r.Some? ==> Hold(r.value, range.value))
  {
    hide Hold;
    hide Folded;
    hide Interval;
    hide ItemCharacters;
    if a.Character? && b.Character? {
      if a.value > b.value {
        return None;
      }
      var max := MaxCharacter(x);
      HoldRange(a.value, b.value);
      var clamped := Clamp([CharacterRange(a.value, b.value)], max, Interval(a.value, b.value));
      var folded := FoldedRanges(x, ignoreCase, clamped, Interval(a.value, b.value) * Interval(0, max));
      return Some(folded);
    }
    if x.unicode {
      return None;
    }
    var left := ItemRanges(x, ignoreCase, a, first);
    var dash := ItemRanges(x, ignoreCase, Character(0x2d), Single(0x2d));
    var right := ItemRanges(x, ignoreCase, b, second);
    HoldJoin(left, dash, ItemCharacters(x, ignoreCase, first), ItemCharacters(x, ignoreCase, Single(0x2d)));
    HoldJoin(left + dash, right, ItemCharacters(x, ignoreCase, first) + ItemCharacters(x, ignoreCase, Single(0x2d)),
             ItemCharacters(x, ignoreCase, second));
    return Some(left + dash + right);
  }

  /** What an item adds to a class with set notation. */
  method ItemToSet(x: Context, ignoreCase: bool, parsed: ParsedItem, ghost item: ClassItem) returns (u: UnicodeSet)
    requires Shows(parsed, item)
    ensures Holds(u, ItemSet(x, ignoreCase, item))
  {
    hide Hold;
    hide Folded;
    var r;
    match parsed
    case Character(value) =>
      HoldRange(value, value);
      r := FoldedRanges(x, ignoreCase, [CharacterRange(value, value)], Interval(value, value));
      u := UnicodeSet(r, []);
    case Set(ranges) =>
      HoldRanges(ranges);
      r := FoldedRanges(x, ignoreCase, ranges, CharactersOf(ranges));
      u := UnicodeSet(r, []);
    case ComplementSet(ranges) =>
      HoldRanges(ranges);
      r := FoldedRanges(x, ignoreCase, ranges, CharactersOf(ranges));
      r := Complement(r, MAX_CODE_POINT, Folded(x, ignoreCase, CharactersOf(ranges)));
      u := UnicodeSet(r, []);
    case PreparedSet(set_) =>
      r := Normalize(set_.ranges, item.set_.characters);
      u := UnicodeSet(r, set_.strings);
  }

  // ---- Sets ----

  method UniteSets(u: UnicodeSet, v: UnicodeSet, ghost a: ClassSet, ghost b: ClassSet) returns (r: UnicodeSet)
    requires Holds(u, a) && Holds(v, b)
    ensures Holds(r, Unite(a, b))
  {
    hide Member;
    var ranges := UniteRanges(u.ranges, v.ranges);
    r := UnicodeSet(ranges, UniteTexts(u.strings, v.strings));
  }

  method IntersectSets(u: UnicodeSet, v: UnicodeSet, ghost a: ClassSet, ghost b: ClassSet) returns (r: UnicodeSet)
    requires Holds(u, a) && Holds(v, b)
    ensures Holds(r, Intersect(a, b))
  {
    hide Member;
    var ranges := IntersectRanges(u.ranges, v.ranges);
    r := UnicodeSet(ranges, KeepTexts(u.strings, v.strings, true));
  }

  method SubtractSets(u: UnicodeSet, v: UnicodeSet, ghost a: ClassSet, ghost b: ClassSet) returns (r: UnicodeSet)
    requires Holds(u, a) && Holds(v, b)
    ensures Holds(r, Subtract(a, b))
  {
    hide Member;
    var ranges := SubtractRanges(u.ranges, v.ranges);
    r := UnicodeSet(ranges, KeepTexts(u.strings, v.strings, false));
  }

  /** A string of one character goes to the ranges. */
  method AddSequence(s: Text, u: UnicodeSet, ghost a: ClassSet) returns (r: UnicodeSet)
    requires Holds(u, a)
    ensures Holds(r, AddText(s, a))
  {
    hide Member;
    if |s| == 1 {
      r := UnicodeSet(u.ranges + [CharacterRange(s[0], s[0])], u.strings);
      forall c: nat
        ensures Member(r.ranges, c) <==> Member(u.ranges, c) || c == s[0]
      {
        MemberLast(u.ranges, CharacterRange(s[0], s[0]), c);
      }
    } else {
      r := UnicodeSet(u.ranges, InsertText(s, u.strings));
    }
  }

  method FoldSet(x: Context, u: UnicodeSet, ghost a: ClassSet) returns (r: UnicodeSet)
    requires Holds(u, a)
    ensures Holds(r, ImageSet(Folding(x), a))
  {
    var ranges := CanonicalizeRanges(Folding(x), u.ranges, a.characters);
    r := UnicodeSet(ranges, MapTexts(Folding(x), u.strings));
  }

  // ---- Properties ----

  method FindProperty(x: Context, inverted: bool, name: Name, value: Name) returns (r: Option<UnicodeSet>)
    ensures var found := FoundProperty(x, inverted, name, value);
            (r.Some? <==> found.Some?) && (r.Some? ==> Holds(r.value, found.value))
  {
    hide Hold;
    var table := CharacterProperty(x.tables, name, value);
    if table.Some? {
      HoldRanges(table.value);
      return Some(UnicodeSet(table.value, []));
    }
    if IsValued(name) || value != [] || inverted || !x.sets {
      return None;
    }
    var list := x.tables.sequences(name);
    if list.None? {
      return None;
    }
    var u := UnicodeSet([], []);
    ghost var so := NOTHING;
    HoldNothing();
    for i := 0 to |list.value|
      invariant Holds(u, so) && AddTexts(list.value[i..], so) == AddTexts(list.value, NOTHING)
    {
      u := AddSequence(list.value[i], u, so);
      so := AddText(list.value[i], so);
    }
    return Some(u);
  }

  lemma HoldNothing()
    ensures Hold([], iset{})
  {
  }

  method PropertyContents(x: Context, ignoreCase: bool, inverted: bool, u: UnicodeSet, ghost found: ClassSet) returns (r: UnicodeSet)
    requires Holds(u, found)
    ensures Holds(r, PropertySet(x, ignoreCase, inverted, found))
  {
    hide Hold;
    ghost var so := found;
    r := u;
    if ignoreCase && x.sets {
      r := FoldSet(x, r, so);
      so := ImageSet(Folding(x), so);
    }
    var ranges := Normalize(r.ranges, so.characters);
    r := UnicodeSet(ranges, r.strings);
    if inverted {
      ranges := Complement(ranges, MAX_CODE_POINT, so.characters);
      r := UnicodeSet(ranges, []);
      so := Plain(Outside(so.characters, MAX_CODE_POINT));
    }
    if ignoreCase && !x.sets {
      r := FoldSet(x, r, so);
    }
  }

  // ---- Classes ----

  method MakeClass(u: UnicodeSet, inverted: bool, ghost set_: ClassSet) returns (class_: P.CharacterClass)
    requires Holds(u, set_)
    ensures class_ == ClassOf(set_, inverted)
  {
    var ranges := Normalize(u.ranges, set_.characters);
    DenotedIsRanges(ranges, set_.characters);
    class_ := P.CharacterClass(ranges, u.strings, inverted);
  }
}
