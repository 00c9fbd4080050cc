/** The pattern parser as the mutable object it is: its loops and cursor updates follow the grammar and build its trees. */
module ParserObject {
  import opened Basics
  import opened Characters
  import opened CharacterRanges
  import opened Prepass
  import opened ClassContents
  import opened Syntax
  import opened UnicodeSets
  import opened Trees
  import opened PrepassAgrees
  import opened CompiledPrograms
  import P = Pattern

  class Parser {
    const x: Context
    var position: nat
    var modifiers: P.Modifiers
    var nextCapture: nat
    var names: seq<Entry>
    var scope: nat
    var depth: nat
    /** The names that were referred to before their groups. */
    ghost var forward: set<Name>

    ghost function Reached(): State
      reads this
    {
      State(position, nextCapture, names, scope, forward)
    }

    /** How many units are left. */
    ghost function Left(): nat
      reads this
    {
      if position <= |x.units| then |x.units| - position else 0
    }

    /** The parser has moved to where the grammar moves, and nothing else has changed. */
    twostate predicate MovedTo(new p: Option<nat>, ok: bool)
      reads this
    {
      && (ok <==> p.Some?)
      && (ok ==> Reached() == old(Reached()).(position := p.value))
      && depth == old(depth) && modifiers == old(modifiers)
    }

    constructor (units: seq<Unit>, unicode: bool, sets: bool, flags: P.Modifiers, summary: Summary, tables: Tables)
      ensures x == Context(units, unicode, sets, summary.captures, summary.named, tables)
      ensures Reached() == START && depth == 0 && modifiers == flags
    {
      x := Context(units, unicode, sets, summary.captures, summary.named, tables);
      position, modifiers, nextCapture, names, scope, depth, forward := 0, flags, 1, [], 0, 0, {};
    }

    function PeekN(offset: nat): int
      reads this
    {
      At(x, position + offset)
    }

    // ---- Runs of characters ----

    /** A repetition count, clamped. */
    method ParseDecimal() returns (value: nat)
      modifies this`position
      ensures position == DigitsEnd(x, old(position)) && value == Clamped(x, 0, old(position))
    {
      value := 0;
      while IsDigit(PeekN(0))
        invariant DigitsEnd(x, position) == DigitsEnd(x, old(position))
        invariant Clamped(x, value, position) == Clamped(x, 0, old(position))
        decreases |x.units| - position
      {
        var next := value * 10 + (PeekN(0) - 0x30);
        value := if next < P.INFINITE_REPETITION then next else P.INFINITE_REPETITION;
        position := position + 1;
      }
    }

    method FinishCharacter(first: int) returns (value: CodePoint)
      requires 0 <= first < 0x1_0000
      modifies this`position
      ensures position == FinishCodePoint(x, first, old(position)) && value == FinishedValue(x, first, old(position))
    {
      value := FinishedValue(x, first, position);
      if x.unicode && IsHighSurrogate(first) && IsLowSurrogate(PeekN(0)) {
        position := position + 1;
      }
    }

    // ---- Escapes ----

    /** At most four hexadecimal digits and their value; on failure the cursor is back at the first. */
    method TakeHex(digits: nat) returns (value: Option<nat>)
      requires digits <= 4
      modifies this`position
      ensures value.Some? <==> forall i :: old(position) <= i < old(position) + digits ==> IsHex(At(x, i))
      ensures position == if value.Some? then old(position) + digits else old(position)
      ensures value.Some? ==> value.value == HexRunValue(x, old(position), old(position) + digits)
    {
      var start, number := position, 0;
      for i := 0 to digits
        invariant position == start + i && forall k :: start <= k < position ==> IsHex(At(x, k))
        invariant number == HexRunValue(x, start, position)
      {
        if !IsHex(PeekN(0)) {
          assert !IsHex(At(x, start + i));
          position := start;
          return None;
        }
        number := number * 16 + HexValue(PeekN(0));
        position := position + 1;
      }
      return Some(number);
    }

    method ParseHexEscape() returns (value: Option<CodePoint>)
      modifies this`position
      ensures MovedTo(old(HexEscape(x, position)), value.Some?)
      ensures value.Some? ==> value.value == HexEscapeValue(x, old(position))
    {
      TwoHexDigits(x, position);
      var number := TakeHex(2);
      if number.None? {
        return if x.unicode then None else Some(0x78);
      }
      return Some(number.value);
    }

    method ParseUnicodeEscape() returns (value: Option<CodePoint>)
      modifies this`position
      ensures MovedTo(old(UnicodeEscape(x, position)), value.Some?)
      ensures value.Some? ==> value.value == UnicodeEscapeValue(x, old(position))
    {
      hide HexRunValue;
      var start := position;
      if x.unicode && PeekN(0) == 0x7b {
        position := position + 1;
        value := ParseBracedHex();
        return;
      }
      FourHexDigits(x, start);
      var four := TakeHex(4);
      if four.None? {
        return if x.unicode then None else Some(0x75);
      }
      if x.unicode && IsHighSurrogate(four.value) && PeekN(0) == BACKSLASH && PeekN(1) == 0x75 {
        position := position + 2;
        FourHexDigits(x, start + 6);
        var low := TakeHex(4);
        if low.Some? && IsLowSurrogate(low.value) {
          return Some(Combine(four.value, low.value));
        }
        position := start + 4;
      }
      return Some(four.value);
    }

    /** After the opening brace: hexadecimal digits of a code point, up to and past the closing brace. */
    method ParseBracedHex() returns (value: Option<CodePoint>)
      modifies this`position
      ensures var end := old(HexEnd(x, position));
              value.Some? <==>
              end > old(position) && At(x, end) == 0x7d && HexRunValue(x, old(position), end) <= MAX_CODE_POINT
      ensures value.Some? ==> position == old(HexEnd(x, position)) + 1
      ensures value.Some? ==> value.value == HexRunValue(x, old(position), old(HexEnd(x, position)))
    {
      var start, number := position, 0;
      while IsHex(PeekN(0))
        invariant start <= position && HexEnd(x, position) == HexEnd(x, start)
        invariant forall i :: start <= i < position ==> IsHex(At(x, i))
        invariant number == HexRunValue(x, start, position) <= MAX_CODE_POINT
        decreases |x.units| - position
      {
        number := number * 16 + HexValue(PeekN(0));
        position := position + 1;
        if number > MAX_CODE_POINT {
          HexRunGrows(x, start, position, HexEnd(x, start));
          return None;
        }
      }
      if position == start || PeekN(0) != 0x7d {
        return None;
      }
      position := position + 1;
      return Some(number);
    }

    method ParseControlEscape(backslash: nat, inClass: bool) returns (value: Option<CodePoint>)
      modifies this`position
      ensures MovedTo(old(ControlEscape(x, position, backslash, inClass)), value.Some?)
      ensures value.Some? ==> value.value == ControlEscapeValue(x, old(position), inClass)
    {
      var unit := PeekN(0);
      if IsLetter(unit) || (inClass && !x.unicode && (IsDigit(unit) || unit == 0x5f)) {
        position := position + 1;
        return Some(unit % 32);
      }
      if x.unicode {
        return None;
      }
      position := backslash + 1;
      return Some(BACKSLASH);
    }

    /** A property name or value: at most 63 characters. */
    method ParsePropertyWord() returns (ok: bool)
      modifies this`position
      ensures ok <==> old(WordEnd(x, position) - position) <= 63
      ensures ok ==> position == old(WordEnd(x, position))
    {
      var start := position;
      while IsPropertyCharacter(PeekN(0))
        invariant start <= position <= start + 63 && WordEnd(x, position) == WordEnd(x, start)
        decreases |x.units| - position
      {
        if position - start >= 63 {
          return false;
        }
        position := position + 1;
      }
      return true;
    }

    /** The name and the value in a property escape, up to and past its closing brace. */
    method ParsePropertyWords() returns (r: Option<(Name, Name)>)
      modifies this`position
      ensures var words := old(PropertyWords(x, position));
              (r.Some? <==> words.Some?) && (r.Some? ==> (position, r.value.0, r.value.1) == words.value)
    {
      hide WordEnd;
      hide IsPropertyCharacter;
      var start := position;
      if PeekN(0) != 0x7b {
        return None;
      }
      position := position + 1;
      var parsed := ParsePropertyWord();
      if !parsed {
        return None;
      }
      var name, value := x.units[start + 1..position], [];
      if PeekN(0) == 0x3d {
        var equals := position;
        position := position + 1;
        parsed := ParsePropertyWord();
        if !parsed {
          return None;
        }
        value := x.units[equals + 1..position];
      }
      if PeekN(0) != 0x7d {
        return None;
      }
      position := position + 1;
      return Some((name, value));
    }

    method ParsePropertyEscape(inverted: bool) returns (u: Option<UnicodeSet>)
      modifies this`position
      ensures var r := old(PropertyEscape(x, modifiers.ignoreCase, inverted, position));
              MovedTo(Cursor(r), u.Some?) && (u.Some? ==> Holds(u.value, r.value.1))
    {
      hide PropertyWords;
      hide FoundProperty;
      hide PropertySet;
      hide Holds;
      var words := ParsePropertyWords();
      if words.None? {
        return None;
      }
      var (name, value) := words.value;
      var found := FindProperty(x, inverted, name, value);
      if found.None? {
        return None;
      }
      var contents := PropertyContents(x, modifiers.ignoreCase, inverted, found.value, FoundProperty(x, inverted, name, value).value);
      return Some(contents);
    }

    method ParseLegacyOctal(first: int) returns (value: CodePoint)
      requires IsOctal(first)
      modifies this`position
      ensures position == old(LegacyOctal(x, first, position)) && value == LegacyOctalValue(x, first, old(position))
    {
      value := first - 0x30;
      if !IsOctal(PeekN(0)) {
        return;
      }
      value := value * 8 + (PeekN(0) - 0x30);
      position := position + 1;
      if value < 32 && IsOctal(PeekN(0)) {
        value := value * 8 + (PeekN(0) - 0x30);
        position := position + 1;
      }
    }

    /** Scans a decimal number without moving the cursor. */
    method ScanDecimal(first: int) returns (value: Option<nat>, end: nat)
      requires 0x31 <= first <= 0x39
      ensures value == DecimalReference(x, Some(first - 0x30), position) && end == DigitsEnd(x, position)
    {
      value, end := Some(first - 0x30), position;
      while IsDigit(At(x, end))
        invariant DecimalReference(x, value, end) == DecimalReference(x, Some(first - 0x30), position)
        invariant DigitsEnd(x, end) == DigitsEnd(x, position)
        decreases |x.units| - end
      {
        if value.Some? {
          var next := value.value * 10 + (At(x, end) - 0x30);
          value := if next < I32_MAX then Some(next) else None;
        }
        end := end + 1;
      }
    }

    // ---- Names ----

    /** The group name from a position, and the cursor after its closing bracket. */
    method ParseGroupName(start: nat) returns (r: Option<(Name, nat)>)
      ensures var end := GroupName(x, start, 0);
              (r.Some? <==> end.Some?) && (r.Some? ==> r.value == (NameAt(x, start), end.value))
    {
      hide Utf16;
      hide Utf8Length;
      hide NameCharacter;
      hide IsIdentifier;
      var name: Name := [];
      var p: nat, length: nat := start, 0;
      while p < |x.units|
        invariant GroupName(x, p, length) == GroupName(x, start, 0)
        invariant GroupName(x, start, 0).Some? ==> NameAt(x, start) == name + NameFrom(x, p, length)
        decreases |x.units| - p
      {
        if x.units[p] == 0x3e {
          assert name + [] == name;
          return if length == 0 then None else Some((name, p + 1));
        }
        var c := NameCharacter(x, p);
        if c.None? || !IsIdentifier(x, c.value.0, length == 0) || length + 7 > 128 {
          return None;
        }
        name := name + Utf16(c.value.0);
        length := length + Utf8Length(c.value.0);
        p := c.value.1;
      }
      return None;
    }

    /** The rough scan of the whole pattern for the captures with a name. */
    method MatchingCaptures(name: Name) returns (captures: seq<nat>)
      ensures captures == Matching(x, name, 0, false, 1)
    {
      hide GroupName;
      hide NameFrom;
      captures := [];
      var index, p := 1, 0;
      while p < |x.units|
        invariant index < CAPTURE_COUNT_MAX
        invariant captures + Matching(x, name, p, false, index) == Matching(x, name, 0, false, 1)
        decreases |x.units| - p
      {
        if x.units[p] == OPEN {
          var isPlain, isNamed := PlainGroup(x.units, p), NamedGroup(x.units, p);
          var next := p;
          if isNamed {
            var found := ParseGroupName(p + 3);
            if found.Some? {
              if found.value.0 == name {
                captures := captures + [index];
              }
              next := found.value.1;
            } else {
              next := p + 3;
            }
          }
          if isPlain || isNamed {
            index := index + 1;
            if index >= CAPTURE_COUNT_MAX {
              return;
            }
          }
          p := next;
        } else if x.units[p] == BACKSLASH {
          p := p + 1;
        } else if x.units[p] == OPEN_CLASS {
          p := p + 1;
          while p < |x.units| && x.units[p] != CLOSE_CLASS
            invariant captures + Matching(x, name, p, true, index) == Matching(x, name, 0, false, 1)
            decreases |x.units| - p
          {
            if x.units[p] == BACKSLASH {
              p := p + 1;
            }
            p := p + 1;
          }
        }
        p := p + 1;
      }
    }

    method ParsedCaptures(name: Name) returns (captures: seq<nat>)
      ensures captures == Resolve(names, name)
    {
      captures := [];
      for i := 0 to |names|
        invariant captures + Resolve(names[i..], name) == Resolve(names, name)
      {
        assert names[i..][1..] == names[i + 1..];
        if names[i].name == name {
          captures := captures + [names[i].capture];
        }
      }
    }

    // ---- Classes ----

    /** One class atom. */
    method ParseClassAtom() returns (r: Option<ParsedItem>)
      modifies this`position
      ensures var atom := old(ClassAtom(x, modifiers.ignoreCase, position));
              && (r.Some? <==> atom.Some?)
              && (r.Some? ==> position == atom.value.0 && Shows(r.value, atom.value.1))
    {
      hide PropertyEscape;
      hide HexEscape;
      hide UnicodeEscape;
      hide LegacyOctal;
      hide ControlEscape;
      hide FinishCodePoint;
      hide HexEscapeValue;
      hide UnicodeEscapeValue;
      hide LegacyOctalValue;
      hide ControlEscapeValue;
      hide FinishedValue;
      hide EscapedRanges;
      hide Holds;
      var start, unit := position, PeekN(0);
      if unit == -1 {
        return None;
      }
      position := position + 1;
      if unit != BACKSLASH {
        var value := FinishCharacter(unit);
        return Some(UnicodeSets.Character(value));
      }
      var escaped := PeekN(0);
      if escaped == -1 {
        return None;
      }
      position := position + 1;
      if escaped in {0x64, 0x73, 0x77} {
        return Some(UnicodeSets.Set(EscapedRanges(escaped)));
      } else if escaped in {0x44, 0x53, 0x57} {
        return Some(ComplementSet(EscapedRanges(escaped)));
      } else if escaped in {0x70, 0x50} && x.unicode {
        var property := ParsePropertyEscape(escaped == 0x50);
        return if property.Some? then Some(PreparedSet(property.value)) else None;
      } else if escaped in {0x62, 0x66, 0x6e, 0x72, 0x74, 0x76} {
        return Some(UnicodeSets.Character(ControlLetter(escaped)));
      } else if escaped == 0x63 {
        var value := ParseControlEscape(start, true);
        return AsItem(value);
      } else if escaped == 0x78 {
        var value := ParseHexEscape();
        return AsItem(value);
      } else if escaped == 0x75 {
        var value := ParseUnicodeEscape();
        return AsItem(value);
      } else if escaped == 0x30 && x.unicode {
        return if IsDigit(PeekN(0)) then None else Some(UnicodeSets.Character(0));
      } else if IsOctal(escaped) {
        if x.unicode {
          return None;
        }
        var value := ParseLegacyOctal(escaped);
        return Some(UnicodeSets.Character(value));
      } else if escaped in {0x38, 0x39, 0x6b} {
        return if x.unicode then None else Some(UnicodeSets.Character(escaped));
      } else if IsSyntaxCharacter(escaped) || escaped in {0x2f, 0x2d} {
        return Some(UnicodeSets.Character(escaped));
      } else if x.unicode {
        return None;
      }
      var value := FinishCharacter(escaped);
      return Some(UnicodeSets.Character(value));
    }

    /** One item of a class, or two with a dash between them. */
    method ParseClassEntry() returns (r: Option<seq<CharacterRange>>)
      modifies this`position
      ensures var entry := old(ClassEntry(x, modifiers.ignoreCase, position));
              && (r.Some? <==> entry.Some?)
              && (r.Some? ==> position == entry.value.0 && Hold(r.value, entry.value.1))
    {
      hide ClassAtom;
      hide Hold;
      hide ItemCharacters;
      hide RangeCharacters;
      hide Shows;
      ghost var first := ClassAtom(x, modifiers.ignoreCase, position);
      var atom := ParseClassAtom();
      if atom.None? {
        return None;
      }
      if PeekN(0) == 0x2d && PeekN(1) != CLOSE_CLASS {
        position := position + 1;
        ghost var second := ClassAtom(x, modifiers.ignoreCase, position);
        var last := ParseClassAtom();
        if last.None? {
          return None;
        }
        r := RangeOfItems(x, modifiers.ignoreCase, atom.value, last.value, first.value.1, second.value.1);
        return;
      }
      var ranges := ItemRanges(x, modifiers.ignoreCase, atom.value, first.value.1);
      return Some(ranges);
    }

    /** A class without set notation, after its opening bracket. */
    method ParseLegacyClass() returns (r: Option<P.CharacterClass>)
      requires !x.sets
      modifies this`position
      ensures var class_ := old(CharacterClass(x, modifiers.ignoreCase, position, depth));
              && MovedTo(Cursor(class_), r.Some?)
              && (r.Some? ==> r.value == ClassOf(class_.value.1, Inverted(x, old(position))))
    {
      hide ClassEntry;
      hide Hold;
      hide ClassOf;
      var inverted := PeekN(0) == 0x5e;
      if inverted {
        position := position + 1;
      }
      ghost var items, held := ClassItems(x, modifiers.ignoreCase, position, iset{}), iset{};
      var ranges: seq<CharacterRange> := [];
      HoldNothing();
      while PeekN(0) != CLOSE_CLASS
        invariant Hold(ranges, held) && ClassItems(x, modifiers.ignoreCase, position, held) == items
        decreases |x.units| - position
      {
        if PeekN(0) == -1 {
          return None;
        }
        ghost var spec := ClassEntry(x, modifiers.ignoreCase, position);
        var entry := ParseClassEntry();
        if entry.None? {
          return None;
        }
        HoldJoin(ranges, entry.value, held, spec.value.1);
        ranges, held := ranges + entry.value, held + spec.value.1;
      }
      position := position + 1;
      var class_ := MakeClass(UnicodeSet(ranges, []), inverted, Plain(held));
      return Some(class_);
    }

    /** One atom of a set. */
    method ParseSetAtom(inClass: bool, allowSets: bool) returns (r: Option<ParsedItem>)
      modifies this`position
      ensures var atom := old(SetAtom(x, modifiers.ignoreCase, position, inClass, allowSets));
              && (r.Some? <==> atom.Some?)
              && (r.Some? ==> position == atom.value.0 && Shows(r.value, atom.value.1))
      decreases Left(), 1
    {
      hide PropertyEscape;
      hide HexEscape;
      hide UnicodeEscape;
      hide ControlEscape;
      hide FinishCodePoint;
      hide SetStrings;
      hide HexEscapeValue;
      hide UnicodeEscapeValue;
      hide ControlEscapeValue;
      hide FinishedValue;
      hide EscapedRanges;
      hide Holds;
      var start, unit := position, PeekN(0);
      if unit == -1 {
        return None;
      }
      position := position + 1;
      if unit != BACKSLASH {
        if (IsDoublePunctuator(unit) && PeekN(0) == unit) || IsReservedPunctuator(unit) {
          return None;
        }
        var value := FinishCharacter(unit);
        return Some(UnicodeSets.Character(value));
      }
      var escaped := PeekN(0);
      if escaped == -1 {
        return None;
      }
      position := position + 1;
      if allowSets && escaped in {0x64, 0x73, 0x77} {
        return Some(UnicodeSets.Set(EscapedRanges(escaped)));
      } else if allowSets && escaped in {0x44, 0x53, 0x57} {
        return Some(ComplementSet(EscapedRanges(escaped)));
      } else if allowSets && escaped in {0x70, 0x50} {
        var property := ParsePropertyEscape(escaped == 0x50);
        return if property.Some? then Some(PreparedSet(property.value)) else None;
      } else if allowSets && inClass && escaped == 0x71 {
        if PeekN(0) != 0x7b {
          return None;
        }
        position := position + 1;
        var strings := ParseSetStrings();
        return if strings.Some? then Some(PreparedSet(strings.value)) else None;
      } else if escaped in {0x62, 0x66, 0x6e, 0x72, 0x74, 0x76} {
        return Some(UnicodeSets.Character(ControlLetter(escaped)));
      } else if escaped == 0x63 {
        var value := ParseControlEscape(start, inClass);
        return AsItem(value);
      } else if escaped == 0x78 {
        var value := ParseHexEscape();
        return AsItem(value);
      } else if escaped == 0x75 {
        var value := ParseUnicodeEscape();
        return AsItem(value);
      } else if escaped == 0x30 {
        return if IsDigit(PeekN(0)) then None else Some(UnicodeSets.Character(0));
      } else if (inClass && escaped == 0x2d) || IsSyntaxCharacter(escaped) || escaped == 0x2f {
        return Some(UnicodeSets.Character(escaped));
      }
      return None;
    }

    /** The strings of a disjunction, after its opening brace. */
    method ParseSetStrings() returns (r: Option<UnicodeSet>)
      modifies this`position
      ensures var strings := old(SetStrings(x, modifiers.ignoreCase, position, [], NOTHING));
              MovedTo(Cursor(strings), r.Some?) && (r.Some? ==> Holds(r.value, strings.value.1))
      decreases Left(), 2
    {
      hide SetAtom;
      hide Hold;
      hide AddText;
      ghost var strings, held := SetStrings(x, modifiers.ignoreCase, position, [], NOTHING), NOTHING;
      var u, s: Text := UnicodeSet([], []), [];
      HoldNothing();
      while true
        invariant old(position) <= position && Holds(u, held)
        invariant SetStrings(x, modifiers.ignoreCase, position, s, held) == strings
        decreases |x.units| - position
      {
        if PeekN(0) == -1 {
          return None;
        }
        if PeekN(0) == 0x7d || PeekN(0) == 0x7c {
          var last := PeekN(0) == 0x7d;
          var text := if modifiers.ignoreCase then MapText(Folding(x), s) else s;
          u := AddSequence(text, u, held);
          held := WithText(x, modifiers.ignoreCase, s, held);
          s, position := [], position + 1;
          if last {
            return Some(u);
          }
        } else {
          var atom := ParseSetAtom(false, false);
          if atom.None? || !atom.value.Character? {
            return None;
          }
          s := s + [atom.value.value];
        }
      }
    }

    /** A class with set notation, after its opening bracket. */
    method ParseSetClass() returns (r: Option<UnicodeSet>)
      modifies this`position, this`depth
      ensures var class_ := old(SetClass(x, modifiers.ignoreCase, position, depth));
              MovedTo(Cursor(class_), r.Some?) && (r.Some? ==> Holds(r.value, class_.value.1))
      decreases Left(), 4
    {
      hide SetItems;
      hide Hold;
      hide Outside;
      if depth >= MAX_GROUP_NESTING {
        return None;
      }
      depth := depth + 1;
      var inverted := PeekN(0) == 0x5e;
      if inverted {
        position := position + 1;
      }
      ghost var items := SetItems(x, modifiers.ignoreCase, position, depth, true, NOTHING);
      r := ParseSetItems();
      depth := depth - 1;
      if r.None? || (inverted && r.value.strings != []) {
        return None;
      }
      if inverted {
        var ranges := Normalize(r.value.ranges, items.value.1.characters);
        ranges := Complement(ranges, MAX_CODE_POINT, items.value.1.characters);
        r := Some(UnicodeSet(ranges, []));
      }
    }

    /** One item of a set: its character if it is one, and what it holds. */
    method ParseSetItem() returns (r: Option<(Option<CodePoint>, UnicodeSet)>)
      modifies this`position, this`depth
      ensures var item := old(SetItem(x, modifiers.ignoreCase, position, depth));
              && MovedTo(if item.Some? then Some(item.value.0) else None, r.Some?)
              && (r.Some? ==> r.value.0 == item.value.1 && Holds(r.value.1, item.value.2))
      decreases Left(), 2
    {
      hide SetAtom;
      hide SetClass;
      hide ItemSet;
      hide Hold;
      if PeekN(0) == OPEN_CLASS {
        position := position + 1;
        var class_ := ParseSetClass();
        return if class_.Some? then Some((None, class_.value)) else None;
      }
      ghost var spec := SetAtom(x, modifiers.ignoreCase, position, true, true);
      var atom := ParseSetAtom(true, true);
      if atom.None? {
        return None;
      }
      var item := ItemToSet(x, modifiers.ignoreCase, atom.value, spec.value.1);
      return Some((if atom.value.Character? then Some(atom.value.value) else None, item));
    }

    /** The items of a set, up to and past its closing bracket. */
    method ParseSetItems() returns (r: Option<UnicodeSet>)
      modifies this`position, this`depth
      ensures var items := old(SetItems(x, modifiers.ignoreCase, position, depth, true, NOTHING));
              MovedTo(Cursor(items), r.Some?) && (r.Some? ==> Holds(r.value, items.value.1))
      decreases Left(), 3
    {
      hide SetItem;
      hide AfterItem;
      hide Hold;
      ghost var items, held := SetItems(x, modifiers.ignoreCase, position, depth, true, NOTHING), NOTHING;
      var u, first := UnicodeSet([], []), true;
      HoldNothing();
      while PeekN(0) != CLOSE_CLASS
        invariant old(position) <= position && depth == old(depth) && Holds(u, held)
        invariant SetItems(x, modifiers.ignoreCase, position, depth, first, held) == items
        decreases |x.units| - position
      {
        if PeekN(0) == -1 {
          return None;
        }
        var start, nested := position, PeekN(0) == OPEN_CLASS;
        ghost var spec := SetItem(x, modifiers.ignoreCase, position, depth);
        var item := ParseSetItem();
        if item.None? {
          return None;
        }
        ghost var next := AfterItem(x, modifiers.ignoreCase, start, position, spec.value.1, spec.value.2, nested, depth, first, held);
        var after := ParseAfterItem(start, item.value.0, item.value.1, nested, first, u, spec.value.2, held);
        if after.None? {
          return None;
        }
        u, held, first := after.value, next.value.1, false;
      }
      position := position + 1;
      return Some(u);
    }

    /** After an item: the end of a range, or the item itself and perhaps an operator chain. */
    method ParseAfterItem(start: nat, scalar: Option<CodePoint>, item: UnicodeSet, nested: bool, first: bool, u: UnicodeSet,
                          ghost contents: ClassSet, ghost held: ClassSet) returns (r: Option<UnicodeSet>)
      requires start < position && start < |x.units| && Holds(item, contents) && Holds(u, held)
      modifies this`position, this`depth
      ensures var after := old(AfterItem(x, modifiers.ignoreCase, start, position, scalar, contents, nested, depth, first, held));
              MovedTo(Cursor(after), r.Some?) && (r.Some? ==> Holds(r.value, after.value.1))
      decreases Left(), 5
    {
      hide SetAtom;
      hide SetChain;
      hide Hold;
      hide Folded;
      hide Interval;
      hide Unite;
      var subtraction := PeekN(0) == 0x2d && PeekN(1) == 0x2d;
      if !nested && PeekN(0) == 0x2d && PeekN(1) != CLOSE_CLASS && !(subtraction && first) {
        if scalar.None? {
          return None;
        }
        position := position + 1;
        var last := ParseSetAtom(true, true);
        if last.None? || !last.value.Character? || scalar.value > last.value.value {
          return None;
        }
        var end := last.value.value;
        HoldRange(scalar.value, end);
        var ranges := FoldedRanges(x, modifiers.ignoreCase, [CharacterRange(scalar.value, end)], Interval(scalar.value, end));
        var united := UniteSets(u, UnicodeSet(ranges, []), held,
                                Plain(Folded(x, modifiers.ignoreCase, Interval(scalar.value, end))));
        return Some(united);
      }
      var united := UniteSets(u, item, held, contents);
      if first && PeekN(0) == 0x26 && PeekN(1) == 0x26 && PeekN(2) != 0x26 {
        r := ParseSetChain(0x26, united, Unite(held, contents));
      } else if first && subtraction {
        r := ParseSetChain(0x2d, united, Unite(held, contents));
      } else {
        return Some(united);
      }
    }

    /** An operator chain, up to its closing bracket. */
    method ParseSetChain(operator: int, start: UnicodeSet, ghost contents: ClassSet) returns (r: Option<UnicodeSet>)
      requires Holds(start, contents)
      modifies this`position, this`depth
      ensures var chain := old(SetChain(x, modifiers.ignoreCase, position, depth, operator, contents));
              MovedTo(Cursor(chain), r.Some?) && (r.Some? ==> Holds(r.value, chain.value.1))
      decreases Left(), 0
    {
      hide SetOperand;
      hide Hold;
      hide Intersect;
      hide Subtract;
      ghost var chain, held := SetChain(x, modifiers.ignoreCase, position, depth, operator, contents), contents;
      var u := start;
      while PeekN(0) != CLOSE_CLASS
        invariant old(position) <= position && depth == old(depth) && Holds(u, held)
        invariant SetChain(x, modifiers.ignoreCase, position, depth, operator, held) == chain
        decreases |x.units| - position
      {
        if PeekN(0) != operator || PeekN(1) != operator || (operator == 0x26 && PeekN(2) == 0x26) || position >= |x.units| {
          return None;
        }
        position := position + 2;
        ghost var spec := SetOperand(x, modifiers.ignoreCase, position, depth);
        var operand := ParseSetOperand();
        if operand.None? {
          return None;
        }
        if operator == 0x26 {
          u := IntersectSets(u, operand.value, held, spec.value.1);
          held := Intersect(held, spec.value.1);
        } else {
          u := SubtractSets(u, operand.value, held, spec.value.1);
          held := Subtract(held, spec.value.1);
        }
      }
      return Some(u);
    }

    method ParseSetOperand() returns (r: Option<UnicodeSet>)
      modifies this`position, this`depth
      ensures var operand := old(SetOperand(x, modifiers.ignoreCase, position, depth));
              MovedTo(Cursor(operand), r.Some?) && (r.Some? ==> Holds(r.value, operand.value.1))
      decreases Left(), 3
    {
      hide SetAtom;
      hide SetClass;
      hide ItemSet;
      hide Hold;
      if PeekN(0) == OPEN_CLASS {
        position := position + 1;
        r := ParseSetClass();
        return;
      }
      ghost var spec := SetAtom(x, modifiers.ignoreCase, position, true, true);
      var atom := ParseSetAtom(true, true);
      if atom.None? {
        return None;
      }
      var u := ItemToSet(x, modifiers.ignoreCase, atom.value, spec.value.1);
      return Some(u);
    }

    /** A class of either kind, after its opening bracket. */
    method ParseCharacterClass() returns (r: Option<P.CharacterClass>)
      modifies this`position, this`depth
      ensures var class_ := old(CharacterClass(x, modifiers.ignoreCase, position, depth));
              && MovedTo(Cursor(class_), r.Some?)
              && (r.Some? ==> r.value == ClassOf(class_.value.1, Inverted(x, old(position))))
      decreases Left(), 5
    {
      hide SetClass;
      hide ClassItems;
      hide ClassOf;
      hide Hold;
      if !x.sets {
        r := ParseLegacyClass();
        return;
      }
      ghost var spec := SetClass(x, modifiers.ignoreCase, position, depth);
      var u := ParseSetClass();
      if u.None? {
        return None;
      }
      var class_ := MakeClass(u.value, false, spec.value.1);
      return Some(class_);
    }

    // ---- Terms ----

    /** The parser has reached the state that the grammar gives. */
    twostate predicate Follows(new r: Option<State>, ok: bool)
      reads this
    {
      (ok <==> r.Some?) && (ok ==> Reached() == r.value) && depth == old(depth) && modifiers == old(modifiers)
    }

    method ParseNamedReference() returns (r: Option<P.Atom>)
      modifies this`position, this`forward
      ensures Follows(NamedReference(x, old(Reached()), old(position)), r.Some?)
      ensures r.Some? ==> r.value == NamedTree(x, old(Reached()), old(position))
    {
      hide GroupName;
      hide NameFrom;
      hide Matching;
      hide Resolve;
      var required := x.unicode || x.hasNamed;
      if PeekN(0) != LESS {
        return if required then None else Some(P.Literal(0x6b));
      }
      var name := ParseGroupName(position + 1);
      if name.None? {
        return if required then None else Some(P.Literal(0x6b));
      }
      var captures := ParsedCaptures(name.value.0);
      if captures == [] {
        captures := MatchingCaptures(name.value.0);
        if captures == [] {
          return if required then None else Some(P.Literal(0x6b));
        }
        forward := forward + {name.value.0};
      }
      position := name.value.1;
      return Some(P.BackReference(captures));
    }

    method ParseDecimalEscape(first: int) returns (r: Option<P.Atom>)
      requires 0x31 <= first <= 0x39
      modifies this`position
      ensures var next := DecimalEscape(x, old(Reached()), first, old(position));
              Follows(if next.Some? then Some(next.value.0) else None, r.Some?) && (next.Some? ==> next.value.1)
      ensures r.Some? ==> r.value == DecimalTree(x, first, old(position))
    {
      hide DecimalReference;
      hide DigitsEnd;
      hide LegacyOctal;
      hide LegacyOctalValue;
      var reference, end := ScanDecimal(first);
      if reference.Some? && reference.value < x.total {
        position := end;
        return Some(P.BackReference([reference.value]));
      }
      if x.unicode {
        return None;
      }
      if IsOctal(first) {
        var value := ParseLegacyOctal(first);
        return Some(P.Literal(value));
      }
      return Some(P.Literal(first));
    }

    /** A class escape that stands alone. */
    method MakeEscapeClass(letter: int) returns (class_: P.CharacterClass)
      ensures class_ == ClassOf(Plain(Folded(x, modifiers.ignoreCase, CharactersOf(EscapedRanges(letter)))), letter in {0x44, 0x57})
    {
      hide ClassOf;
      hide Hold;
      hide EscapedRanges;
      ghost var held := CharactersOf(EscapedRanges(letter));
      HoldRanges(EscapedRanges(letter));
      var ranges := FoldedRanges(x, modifiers.ignoreCase, EscapedRanges(letter), held);
      class_ := MakeClass(UnicodeSet(ranges, []), letter in {0x44, 0x57}, Plain(Folded(x, modifiers.ignoreCase, held)));
    }

    /** An escape outside classes, after its backslash. */
    method ParseEscape() returns (r: Option<P.Atom>, quantifiable: bool)
      modifies this`position, this`forward
      ensures var next := Escape(x, modifiers, old(Reached()), old(position));
              && Follows(if next.Some? then Some(next.value.0) else None, r.Some?)
              && (r.Some? ==> quantifiable == next.value.1 && r.value == EscapeTree(x, modifiers, old(Reached()), old(position)))
    {
      hide PropertyEscape;
      hide HexEscape;
      hide UnicodeEscape;
      hide LegacyOctal;
      hide ControlEscape;
      hide FinishCodePoint;
      hide HexEscapeValue;
      hide UnicodeEscapeValue;
      hide LegacyOctalValue;
      hide ControlEscapeValue;
      hide FinishedValue;
      hide NamedReference;
      hide NamedTree;
      hide DecimalEscape;
      hide DecimalTree;
      hide ClassOf;
      hide Hold;
      hide EscapedRanges;
      var start, escaped := position, PeekN(0);
      quantifiable := true;
      if escaped == -1 {
        return None, true;
      }
      position := position + 1;
      if escaped in {0x62, 0x42} {
        return Some(P.WordBoundary(escaped == 0x42)), false;
      } else if escaped in {0x73, 0x53} {
        r := Some(P.Space(escaped == 0x53));
      } else if escaped in {0x64, 0x44, 0x77, 0x57} {
        var class_ := MakeEscapeClass(escaped);
        r := Some(P.Class(class_));
      } else if escaped in {0x70, 0x50} && x.unicode {
        ghost var spec := PropertyEscape(x, modifiers.ignoreCase, escaped == 0x50, position);
        var u := ParsePropertyEscape(escaped == 0x50);
        if u.None? {
          return None, true;
        }
        var class_ := MakeClass(u.value, false, spec.value.1);
        r := Some(P.Class(class_));
      } else if escaped == 0x6b {
        NamedFrom(x, Reached(), position, start);
        r := ParseNamedReference();
      } else if 0x31 <= escaped <= 0x39 {
        DecimalFrom(x, Reached(), escaped, position, start);
        r := ParseDecimalEscape(escaped);
      } else if escaped == 0x30 {
        if x.unicode {
          r := if IsDigit(PeekN(0)) then None else Some(P.Literal(0));
        } else {
          var value := ParseLegacyOctal(escaped);
          r := Some(P.Literal(value));
        }
      } else if escaped in {0x66, 0x6e, 0x72, 0x74, 0x76} {
        r := Some(P.Literal(ControlLetter(escaped)));
      } else if escaped == 0x63 {
        var value := ParseControlEscape(if start == 0 then 0 else start - 1, false);
        r := AsLiteral(value);
      } else if escaped == 0x78 {
        var value := ParseHexEscape();
        r := AsLiteral(value);
      } else if escaped == 0x75 {
        var value := ParseUnicodeEscape();
        r := AsLiteral(value);
      } else if IsSyntaxCharacter(escaped) || escaped == 0x2f {
        r := Some(P.Literal(escaped));
      } else if x.unicode {
        r := None;
      } else {
        var value := FinishCharacter(escaped);
        r := Some(P.Literal(value));
      }
    }

    method ParseQuantifier() returns (ok: bool, quantifier: Option<P.Quantifier>)
      modifies this`position
      ensures var r := old(Quantifier(x, position));
              (ok <==> r.Some?) && (ok ==> position == r.value.0 && quantifier == r.value.1)
    {
      hide IsDigit;
      hide DigitsEnd;
      hide Clamped;
      var start, unit := position, PeekN(0);
      var minimum, maximum: Option<nat> := 0, None;
      if unit in {0x2a, 0x2b, 0x3f} {
        position := position + 1;
        minimum := if unit == 0x2b then 1 else 0;
        maximum := if unit == 0x3f then Some(1) else None;
      } else if unit == 0x7b {
        if !IsDigit(PeekN(1)) {
          return !x.unicode, None;
        }
        position := position + 1;
        minimum := ParseDecimal();
        maximum := Some(minimum);
        if PeekN(0) == 0x2c {
          position := position + 1;
          SomeDigits(x, position);
          if IsDigit(PeekN(0)) {
            var value := ParseDecimal();
            maximum := Some(value);
          } else {
            maximum := None;
          }
        }
        if PeekN(0) != 0x7d {
          if x.unicode {
            return false, None;
          }
          position := start;
          return true, None;
        }
        position := position + 1;
        if maximum.Some? && maximum.value < minimum {
          return false, None;
        }
      } else {
        return true, None;
      }
      var greedy := PeekN(0) != QUESTION;
      if !greedy {
        position := position + 1;
      }
      return true, Some(P.Quantifier(minimum, maximum, greedy));
    }

    method ParseModifiers() returns (ok: bool, seen: set<int>)
      modifies this`position
      ensures var r := old(Modifiers(x, position, {}));
              (ok <==> r.Some?) && (ok ==> position == r.value.0 && seen == r.value.1)
    {
      seen := {};
      while PeekN(0) in {0x69, 0x6d, 0x73}
        invariant Modifiers(x, position, seen) == old(Modifiers(x, position, {}))
        decreases |x.units| - position
      {
        if PeekN(0) in seen {
          return false, seen;
        }
        seen := seen + {PeekN(0)};
        position := position + 1;
      }
      return true, seen;
    }

    /** The modifiers inside a modifier group, after its colon. */
    method ParseModifierHead() returns (r: Option<P.Modifiers>)
      modifies this`position
      ensures MovedTo(old(ModifierHead(x, position)), r.Some?)
      ensures r.Some? ==> r.value == HeadModifiers(x, modifiers, old(position))
    {
      hide Modifiers;
      var added, add := ParseModifiers();
      if !added {
        return None;
      }
      var remove := {};
      if PeekN(0) == 0x2d {
        position := position + 1;
        var removed;
        removed, remove := ParseModifiers();
        if !removed {
          return None;
        }
      }
      if (add == {} && remove == {}) || add * remove != {} || PeekN(0) != 0x3a {
        return None;
      }
      position := position + 1;
      return Some(Updated(modifiers, add, remove));
    }

    method TakeCapture(name: Option<Name>) returns (ok: bool)
      modifies this`nextCapture, this`names
      ensures Follows(AllocateCapture(old(Reached()), name), ok)
    {
      if nextCapture >= CAPTURE_COUNT_MAX {
        return false;
      }
      if name.Some? {
        names := names + [Entry(name.value, scope, nextCapture)];
      }
      nextCapture := nextCapture + 1;
      return true;
    }

    method IsDuplicate(name: Name) returns (duplicate: bool)
      ensures duplicate == Duplicate(Reached(), name)
    {
      for i := 0 to |names|
        invariant forall k :: 0 <= k < i ==> !(names[k].scope == scope && names[k].name == name)
      {
        if names[i].scope == scope && names[i].name == name {
          return true;
        }
      }
      return false;
    }

    /** The head of a group, after its opening parenthesis; the modifiers inside the group. */
    method ParseGroupHead() returns (r: Option<P.Modifiers>)
      modifies this`position, this`nextCapture, this`names
      ensures Follows(GroupHead(x, old(Reached()), old(position)), r.Some?)
      ensures r.Some? ==> r.value == Inner(x, modifiers, old(position))
    {
      hide GroupName;
      hide NameFrom;
      hide ModifierHead;
      hide HeadModifiers;
      hide Duplicate;
      var ok;
      if PeekN(0) != QUESTION {
        ok := TakeCapture(None);
        return if ok then Some(modifiers) else None;
      }
      position := position + 1;
      var kind := PeekN(0);
      if kind in {0x3a, 0x3d, 0x21} {
        position := position + 1;
        return Some(modifiers);
      }
      if kind == LESS {
        if PeekN(1) in {0x3d, 0x21} {
          position := position + 2;
          return Some(modifiers);
        }
        position := position + 1;
        var name := ParseGroupName(position);
        if name.None? {
          return None;
        }
        var duplicate := IsDuplicate(name.value.0);
        DuplicateFrom(Reached(), name.value.0, old(position));
        if duplicate {
          return None;
        }
        position := name.value.1;
        ok := TakeCapture(Some(name.value.0));
        return if ok then Some(modifiers) else None;
      }
      if kind in {0x69, 0x6d, 0x73, 0x2d} {
        r := ParseModifierHead();
        return;
      }
      return None;
    }

    /** A group, after its opening parenthesis; the modifiers are restored behind it. */
    method ParseGroup() returns (r: Option<P.Atom>)
      modifies this
      ensures Follows(Group(x, old(modifiers), old(Reached()), old(position), old(depth)), r.Some?)
      ensures r.Some? ==> r.value == GroupTree(x, modifiers, old(Reached()), old(position), old(depth))
      decreases Left(), 4
    {
      hide GroupHead;
      hide Disjunction;
      hide DisjunctionTree;
      hide Enclosed;
      hide Inner;
      if depth >= MAX_GROUP_NESTING {
        return None;
      }
      var start, saved, capture := position, modifiers, nextCapture;
      var head := ParseGroupHead();
      if head.None? {
        return None;
      }
      depth, modifiers := depth + 1, head.value;
      var body := ParseDisjunction(true);
      depth, modifiers := depth - 1, saved;
      if body.None? || PeekN(0) != CLOSE {
        return None;
      }
      position := position + 1;
      return Some(Enclosed(x, modifiers, capture, start, P.Expression(body.value)));
    }

    method ParseAtom() returns (r: Option<P.Atom>, quantifiable: bool)
      modifies this
      ensures var next := Atom(x, old(modifiers), old(Reached()), old(depth));
              && Follows(if next.Some? then Some(next.value.0) else None, r.Some?)
              && (r.Some? ==> quantifiable == next.value.1 && r.value == AtomTree(x, modifiers, old(Reached()), old(depth)))
      decreases Left(), 0
    {
      hide Group;
      hide GroupTree;
      hide Escape;
      hide EscapeTree;
      hide CharacterClass;
      hide ClassOf;
      hide FinishCodePoint;
      hide FinishedValue;
      var unit := PeekN(0);
      quantifiable := true;
      if unit == -1 || unit == CLOSE {
        return None, true;
      }
      position := position + 1;
      if unit == 0x2e {
        return Some(P.Dot), true;
      } else if unit in {0x5e, 0x24} {
        return Some(if unit == 0x5e then P.LineStart else P.LineEnd), false;
      } else if unit == OPEN {
        quantifiable := QuantifiableGroup(x, position);
        GroupFrom(x, modifiers, Reached(), position, depth, old(position));
        r := ParseGroup();
      } else if unit == OPEN_CLASS {
        var class_ := ParseCharacterClass();
        r := if class_.Some? then Some(P.Class(class_.value)) else None;
      } else if unit == BACKSLASH {
        EscapeFrom(x, modifiers, Reached(), position, old(position));
        r, quantifiable := ParseEscape();
      } else if x.unicode && unit in {CLOSE_CLASS, 0x7d, 0x7b} {
        return None, true;
      } else {
        var value := FinishCharacter(unit);
        return Some(P.Literal(value)), true;
      }
    }

    /** Where there is nothing to repeat: a look ahead for a brace quantifier. */
    method BraceQuantifierFollows() returns (follows: bool)
      requires PeekN(0) == 0x7b
      ensures follows == BraceQuantifier(x, position)
    {
      var p := position + 1;
      if !IsDigit(At(x, p)) {
        return false;
      }
      while IsDigit(At(x, p))
        invariant DigitsEnd(x, p) == DigitsEnd(x, position + 1)
        decreases |x.units| - p
      {
        p := p + 1;
      }
      if At(x, p) == 0x2c {
        p := p + 1;
        ghost var comma := p;
        while IsDigit(At(x, p))
          invariant DigitsEnd(x, p) == DigitsEnd(x, comma)
          decreases |x.units| - p
        {
          p := p + 1;
        }
      }
      return At(x, p) == 0x7d;
    }

    method ParseSequence(inGroup: bool) returns (r: Option<seq<P.Term>>)
      modifies this
      ensures Follows(Sequence(x, old(modifiers), old(Reached()), inGroup, old(depth)), r.Some?)
      ensures r.Some? ==> r.value == SequenceTree(x, modifiers, old(Reached()), inGroup, old(depth))
      decreases Left(), 2
    {
      hide Atom;
      hide AtomTree;
      hide Quantifier;
      hide BraceQuantifier;
      ghost var end, start := Sequence(x, modifiers, Reached(), inGroup, depth), Reached();
      var terms: seq<P.Term> := [];
      while !(PeekN(0) == -1 || PeekN(0) == 0x7c || (inGroup && PeekN(0) == CLOSE))
        invariant old(position) <= position && depth == old(depth) && modifiers == old(modifiers)
        invariant Sequence(x, modifiers, Reached(), inGroup, depth) == end
        invariant end.Some? ==> SequenceTree(x, modifiers, start, inGroup, depth) ==
                                terms + SequenceTree(x, modifiers, Reached(), inGroup, depth)
        decreases |x.units| - position
      {
        if PeekN(0) in {0x2a, 0x2b, 0x3f} {
          return None;
        }
        if !x.unicode && PeekN(0) == 0x7b {
          var follows := BraceQuantifierFollows();
          if follows {
            return None;
          }
        }
        NoBrace(x, position);
        ghost var before, so := Reached(), terms;
        var atom, quantifiable := ParseAtom();
        if atom.None? {
          return None;
        }
        var quantifier := None;
        if quantifiable || PeekN(0) != 0x7b {
          var parsed;
          parsed, quantifier := ParseQuantifier();
          if !parsed || (quantifier.Some? && !quantifiable) {
            return None;
          }
        }
        if quantifier.Some? && quantifier.value.maximum == Some(0) {
          forward := before.forward;
        }
        terms := terms + [P.Term(atom.value, quantifier)];
        if end.Some? {
          assert SequenceTree(x, modifiers, before, inGroup, depth) ==
                 [P.Term(atom.value, quantifier)] + SequenceTree(x, modifiers, Reached(), inGroup, depth);
          Appended(so, P.Term(atom.value, quantifier), SequenceTree(x, modifiers, Reached(), inGroup, depth));
        }
      }
      return Some(terms);
    }

    method ParseDisjunction(inGroup: bool) returns (r: Option<seq<P.Sequence>>)
      modifies this
      ensures Follows(Disjunction(x, old(modifiers), old(Reached()), inGroup, old(depth)), r.Some?)
      ensures r.Some? ==> r.value == DisjunctionTree(x, modifiers, old(Reached()), inGroup, old(depth))
      decreases Left(), 3
    {
      hide Sequence;
      hide SequenceTree;
      ghost var end, start := Disjunction(x, modifiers, Reached(), inGroup, depth), Reached();
      var alternatives: seq<P.Sequence> := [];
      while true
        invariant old(position) <= position && depth == old(depth) && modifiers == old(modifiers)
        invariant Disjunction(x, modifiers, Reached(), inGroup, depth) == end
        invariant end.Some? ==> DisjunctionTree(x, modifiers, start, inGroup, depth) ==
                                alternatives + DisjunctionTree(x, modifiers, Reached(), inGroup, depth)
        decreases |x.units| - position
      {
        ghost var before, so := Reached(), alternatives;
        var sequence := ParseSequence(inGroup);
        if sequence.None? {
          return None;
        }
        alternatives := alternatives + [P.Sequence(sequence.value)];
        if PeekN(0) != 0x7c {
          return Some(alternatives);
        }
        position, scope := position + 1, NextScope(scope);
        if end.Some? {
          assert DisjunctionTree(x, modifiers, before, inGroup, depth) ==
                 [P.Sequence(sequence.value)] + DisjunctionTree(x, modifiers, Reached(), inGroup, depth);
          Appended(so, P.Sequence(sequence.value), DisjunctionTree(x, modifiers, Reached(), inGroup, depth));
        }
      }
    }

    /** The whole pattern, from a new parser. */
    method ParsePattern() returns (r: Option<P.Expression>)
      requires Reached() == START && depth == 0
      modifies this
      ensures Follows(Parse(x, old(modifiers)), r.Some?)
      ensures r.Some? ==> r.value == Tree(x, modifiers)
    {
      var alternatives := ParseDisjunction(false);
      if alternatives.None? || position != |x.units| {
        return None;
      }
      return Some(P.Expression(alternatives.value));
    }
  }

  lemma Appended<T>(a: seq<T>, b: T, c: seq<T>)
    ensures a + ([b] + c) == (a + [b]) + c
  {
  }

  function AsItem(value: Option<CodePoint>): Option<ParsedItem> {
    if value.Some? then Some(UnicodeSets.Character(value.value)) else None
  }

  function AsLiteral(value: Option<CodePoint>): Option<P.Atom> {
    if value.Some? then Some(P.Literal(value.value)) else None
  }

  lemma SomeDigits(x: Context, p: nat)
    ensures IsDigit(At(x, p)) <==> DigitsEnd(x, p) > p
  {
  }

  lemma TwoHexDigits(x: Context, p: nat)
    ensures IsHex(At(x, p)) && IsHex(At(x, p + 1)) <==> forall i :: p <= i < p + 2 ==> IsHex(At(x, i))
    ensures IsHex(At(x, p)) && IsHex(At(x, p + 1)) ==> HexRunValue(x, p, p + 2) == HexEscapeValue(x, p)
  {
    if IsHex(At(x, p)) && IsHex(At(x, p + 1)) {
      assert HexRunValue(x, p, p + 1) == HexValue(At(x, p));
    }
  }

  lemma FourHexDigits(x: Context, p: nat)
    ensures FourHex(x, p) <==> forall i :: p <= i < p + 4 ==> IsHex(At(x, i))
    ensures FourHex(x, p) ==> HexRunValue(x, p, p + 4) == FourHexValue(x, p)
  {
    if FourHex(x, p) {
      assert HexRunValue(x, p, p + 1) == HexValue(At(x, p));
      assert HexRunValue(x, p, p + 2) == HexRunValue(x, p, p + 1) * 16 + HexValue(At(x, p + 1));
      assert HexRunValue(x, p, p + 3) == HexRunValue(x, p, p + 2) * 16 + HexValue(At(x, p + 2));
    }
  }

  /** More digits never make a number smaller. */
  lemma {:induction false} HexRunGrows(x: Context, start: nat, p: nat, end: nat)
    requires start <= p <= end && forall i :: start <= i < end ==> IsHex(At(x, i))
    ensures HexRunValue(x, start, p) <= HexRunValue(x, start, end)
    decreases end - p
  {
    if p < end {
      HexRunGrows(x, start, p, end - 1);
    }
  }

  // Where a state came from does not matter once the cursor is given.

  lemma GroupFrom(x: Context, m: P.Modifiers, s: State, p: nat, depth: nat, q: nat)
    ensures Group(x, m, s, p, depth) == Group(x, m, s.(position := q), p, depth)
    ensures Group(x, m, s, p, depth).Some? ==> GroupTree(x, m, s, p, depth) == GroupTree(x, m, s.(position := q), p, depth)
  {
    hide Disjunction;
    hide DisjunctionTree;
    hide ModifierHead;
    hide GroupName;
    hide NameFrom;
    hide Enclosed;
    hide Inner;
    DuplicatesFrom(s, q);
  }

  lemma DuplicatesFrom(s: State, q: nat)
    ensures forall name :: Duplicate(s, name) == Duplicate(s.(position := q), name)
  {
  }

  lemma DuplicateFrom(s: State, name: Name, q: nat)
    ensures Duplicate(s, name) == Duplicate(s.(position := q), name)
  {
  }

  lemma EscapeFrom(x: Context, m: P.Modifiers, s: State, p: nat, q: nat)
    ensures Escape(x, m, s, p) == Escape(x, m, s.(position := q), p)
    ensures Escape(x, m, s, p).Some? ==> EscapeTree(x, m, s, p) == EscapeTree(x, m, s.(position := q), p)
  {
    hide PropertyEscape;
    hide HexEscape;
    hide UnicodeEscape;
    hide LegacyOctal;
    hide ControlEscape;
    hide FinishCodePoint;
    hide NamedReference;
    hide NamedTree;
    hide DecimalEscape;
    hide DecimalTree;
    hide ClassOf;
    NamedFrom(x, s, p + 1, q);
    if 0x31 <= At(x, p) <= 0x39 {
      DecimalFrom(x, s, At(x, p), p + 1, q);
    }
  }

  lemma NamedFrom(x: Context, s: State, p: nat, q: nat)
    ensures NamedReference(x, s, p) == NamedReference(x, s.(position := q), p)
    ensures NamedTree(x, s, p) == NamedTree(x, s.(position := q), p)
  {
    hide GroupName;
    hide NameFrom;
    hide Matching;
    hide Resolve;
  }

  lemma DecimalFrom(x: Context, s: State, first: int, p: nat, q: nat)
    requires 0x31 <= first <= 0x39
    ensures DecimalEscape(x, s, first, p) == DecimalEscape(x, s.(position := q), first, p)
  {
    hide LegacyOctal;
    hide DecimalReference;
    hide DigitsEnd;
  }

  /**
   Prepass and parser together: the tree of an accepted pattern, arranged, with as many captures as the prepass
   announced. It is valid exactly when the emitted forward references are in range.
   */
  method ParseUnits(units: seq<Unit>, unicode: bool, sets: bool, flags: P.Modifiers, tables: Tables)
    returns (summary: Summary, r: Option<P.Expression>)
    ensures summary == Scan(units, 0, false, Summary(1, false)) && summary.captures <= CAPTURE_COUNT_MAX
    ensures var x := Context(units, unicode, sets, summary.captures, summary.named, tables);
            && (r.Some? <==> Parse(x, flags).Some?)
            && (r.Some? ==>
                  var s := Parse(x, flags).value;
                  && r.value == Tree(x, flags)
                  && summary == Summary(s.captures, s.names != [])
                  && ArrangedPattern(r.value, summary.captures)
                  && (ValidPattern(r.value, summary.captures) <==> InRange(x, s.forward, summary.captures)))
  {
    hide Scan;
    hide Disjunction;
    hide ValidPattern;
    hide ArrangedPattern;
    hide InRange;
    summary := CaptureSummary(units);
    ScanBounds(units, 0, false, Summary(1, false));
    var parser := new Parser(units, unicode, sets, flags, summary, tables);
    r := parser.ParsePattern();
    if r.Some? {
      PrepassIsExact(parser.x, flags);
      AcceptedIsArranged(parser.x, flags);
      AcceptedIsValid(parser.x, flags);
    }
  }
}
