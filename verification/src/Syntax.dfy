/**
 * The pattern parser as a function of the text: how its cursor moves, how it numbers and names groups, and
 * what its classes hold. A result of None is a syntax error. The Unicode tables are parameters.
 */
module Syntax {
  import opened Basics
  import opened Characters
  import opened CharacterRanges
  import opened Prepass
  import opened ClassContents
  import RangeAlgebra
  import Pattern

  const MAX_GROUP_NESTING := 256
  const I32_MAX := 0x7fff_ffff

  type Name = seq<Unit>

  type Table = t: seq<CharacterRange> | RangeAlgebra.CodePoints(t) witness []

  /**
   * The Unicode data: identifiers, scripts, general categories, binary properties, properties of strings, and
   * the two ways of folding case. `script` is given the name and whether script extensions are meant.
   */
  datatype Tables = Tables(
    idStart: nat -> bool,
    idContinue: nat -> bool,
    script: (Name, bool) -> Option<Table>,
    category: Name -> Option<Table>,
    binary: Name -> Option<Table>,
    sequences: Name -> Option<seq<Text>>,
    upper: Unit -> Unit,
    fold: CodePoint -> CodePoint
  )

  /** What the parser knows from the start. */
  datatype Context = Context(
    units: seq<Unit>,
    unicode: bool,
    sets: bool,
    total: nat,
    hasNamed: bool,
    tables: Tables
  )

  function At(x: Context, p: nat): int {
    Peek(x.units, p)
  }

  // ---- Characters ----

  predicate IsDigit(unit: int) {
    0x30 <= unit <= 0x39
  }

  predicate IsOctal(unit: int) {
    0x30 <= unit <= 0x37
  }

  predicate IsLetter(unit: int) {
    0x61 <= unit <= 0x7a || 0x41 <= unit <= 0x5a
  }

  predicate IsHex(unit: int) {
    IsDigit(unit) || 0x41 <= unit <= 0x46 || 0x61 <= unit <= 0x66
  }

  function HexValue(unit: int): (r: nat)
    requires IsHex(unit)
    ensures r < 16
  {
    if IsDigit(unit) then unit - 0x30 else if unit <= 0x46 then unit - 0x41 + 10 else unit - 0x61 + 10
  }

  predicate IsPropertyCharacter(unit: int) {
    IsDigit(unit) || IsLetter(unit) || unit == 0x5f
  }

  predicate IsSyntaxCharacter(unit: int) {
    unit in {0x5e, 0x24, 0x5c, 0x2e, 0x2a, 0x2b, 0x3f, 0x28, 0x29, 0x5b, 0x5d, 0x7b, 0x7d, 0x7c}
  }

  predicate IsDoublePunctuator(unit: int) {
    unit in {0x26, 0x21, 0x23, 0x24, 0x25, 0x2a, 0x2b, 0x2c, 0x2e, 0x3a, 0x3b, 0x3c, 0x3d, 0x3e, 0x3f, 0x40, 0x5e, 0x60, 0x7e}
  }

  predicate IsReservedPunctuator(unit: int) {
    unit in {0x28, 0x29, 0x5b, 0x5d, 0x7b, 0x7d, 0x2f, 0x2d, 0x7c}
  }

  // ---- Runs of characters ----

  function DigitsEnd(x: Context, p: nat): (r: nat)
    ensures p <= r && (p <= |x.units| ==> r <= |x.units|)
    ensures forall i :: p <= i < r ==> IsDigit(At(x, i))
    decreases |x.units| - p
  {
    if IsDigit(At(x, p)) then DigitsEnd(x, p + 1) else p
  }

  function HexEnd(x: Context, p: nat): (r: nat)
    ensures p <= r && (p <= |x.units| ==> r <= |x.units|)
    ensures forall i :: p <= i < r ==> IsHex(At(x, i))
    decreases |x.units| - p
  {
    if IsHex(At(x, p)) then HexEnd(x, p + 1) else p
  }

  function WordEnd(x: Context, p: nat): (r: nat)
    ensures p <= r && (p <= |x.units| ==> r <= |x.units|)
    ensures forall i :: p <= i < r ==> IsPropertyCharacter(At(x, i))
    decreases |x.units| - p
  {
    if IsPropertyCharacter(At(x, p)) then WordEnd(x, p + 1) else p
  }

  predicate FourHex(x: Context, p: nat) {
    IsHex(At(x, p)) && IsHex(At(x, p + 1)) && IsHex(At(x, p + 2)) && IsHex(At(x, p + 3))
  }

  function FourHexValue(x: Context, p: nat): (r: nat)
    requires FourHex(x, p)
    ensures r < 0x1_0000
  {
    ((HexValue(At(x, p)) * 16 + HexValue(At(x, p + 1))) * 16 + HexValue(At(x, p + 2))) * 16 + HexValue(At(x, p + 3))
  }

  function HexRunValue(x: Context, p: nat, end: nat): nat
    requires p <= end && forall i :: p <= i < end ==> IsHex(At(x, i))
    decreases end - p
  {
    if p == end then 0 else HexRunValue(x, p, end - 1) * 16 + HexValue(At(x, end - 1))
  }

  /** After a first unit: past the second half of its surrogate pair. */
  function FinishCodePoint(x: Context, first: int, p: nat): nat {
    if x.unicode && IsHighSurrogate(first) && IsLowSurrogate(At(x, p)) then p + 1 else p
  }

  // ---- Escapes; the cursor is after the escaped letter ----

  function HexEscape(x: Context, p: nat): Option<nat> {
    if IsHex(At(x, p)) && IsHex(At(x, p + 1)) then Some(p + 2) else if x.unicode then None else Some(p)
  }

  function UnicodeEscape(x: Context, p: nat): Option<nat> {
    if x.unicode && At(x, p) == 0x7b then
      var end := HexEnd(x, p + 1);
      if end == p + 1 || At(x, end) != 0x7d || HexRunValue(x, p + 1, end) > MAX_CODE_POINT then None else Some(end + 1)
    else if !FourHex(x, p) then (if x.unicode then None else Some(p))
    else if && x.unicode && IsHighSurrogate(FourHexValue(x, p)) && At(x, p + 4) == BACKSLASH && At(x, p + 5) == 0x75
            && FourHex(x, p + 6) && IsLowSurrogate(FourHexValue(x, p + 6)) then Some(p + 10)
    else Some(p + 4)
  }

  function ControlEscape(x: Context, p: nat, backslash: nat, inClass: bool): Option<nat> {
    if IsLetter(At(x, p)) || (inClass && !x.unicode && (IsDigit(At(x, p)) || At(x, p) == 0x5f)) then Some(p + 1)
    else if x.unicode then None
    else Some(backslash + 1)
  }

  /** The cursor after a property escape, and the name and value in it. */
  function PropertyWords(x: Context, p: nat): Option<(nat, Name, Name)> {
    if At(x, p) != 0x7b then None
    else
      var name := WordEnd(x, p + 1);
      if name - (p + 1) > 63 then None
      else
        var value := if At(x, name) == 0x3d then WordEnd(x, name + 1) else name;
        if value > name && value - (name + 1) > 63 then None
        else if At(x, value) != 0x7d then None
        else Some((value + 1, x.units[p + 1..name], if value > name then x.units[name + 1..value] else []))
  }

  // Script, sc, Script_Extensions, scx, General_Category and gc.
  const SCRIPT: Name := [0x53, 0x63, 0x72, 0x69, 0x70, 0x74]
  const SC: Name := [0x73, 0x63]
  const SCRIPT_EXTENSIONS: Name := SCRIPT + [0x5f, 0x45, 0x78, 0x74, 0x65, 0x6e, 0x73, 0x69, 0x6f, 0x6e, 0x73]
  const SCX: Name := [0x73, 0x63, 0x78]
  const GENERAL_CATEGORY: Name := [0x47, 0x65, 0x6e, 0x65, 0x72, 0x61, 0x6c, 0x5f, 0x43, 0x61, 0x74, 0x65, 0x67, 0x6f, 0x72, 0x79]
  const GC: Name := [0x67, 0x63]

  /** The properties that are given a value. */
  predicate IsValued(name: Name) {
    name in [SCRIPT, SC, SCRIPT_EXTENSIONS, SCX, GENERAL_CATEGORY, GC]
  }

  /** A property of characters, by its name and value. */
  function CharacterProperty(tables: Tables, name: Name, value: Name): Option<Table> {
    if name == SCRIPT || name == SC then tables.script(value, false)
    else if name == SCRIPT_EXTENSIONS || name == SCX then tables.script(value, true)
    else if name == GENERAL_CATEGORY || name == GC then tables.category(value)
    else if value != [] then None
    else if tables.category(name).Some? then tables.category(name)
    else tables.binary(name)
  }

  ghost function FoundProperty(x: Context, inverted: bool, name: Name, value: Name): Option<ClassSet> {
    var table := CharacterProperty(x.tables, name, value);
    if table.Some? then Some(Plain(CharactersOf(table.value)))
    else if !IsValued(name) && value == [] && !inverted && x.sets && x.tables.sequences(name).Some? then
      Some(AddTexts(x.tables.sequences(name).value, NOTHING))
    else None
  }

  /** Case is folded before the complement in set notation, after it otherwise. */
  ghost function PropertySet(x: Context, ignoreCase: bool, inverted: bool, found: ClassSet): ClassSet {
    var early := if ignoreCase && x.sets then ImageSet(Folding(x), found) else found;
    var turned := if inverted then Plain(Outside(early.characters, MAX_CODE_POINT)) else early;
    if ignoreCase && !x.sets then ImageSet(Folding(x), turned) else turned
  }

  ghost function PropertyEscape(x: Context, ignoreCase: bool, inverted: bool, p: nat): Option<(nat, ClassSet)> {
    var words := PropertyWords(x, p);
    if words.None? then None
    else
      var found := FoundProperty(x, inverted, words.value.1, words.value.2);
      if found.None? then None else Some((words.value.0, PropertySet(x, ignoreCase, inverted, found.value)))
  }

  function LegacyOctal(x: Context, first: int, p: nat): nat {
    if !IsOctal(At(x, p)) then p
    else if (first - 0x30) * 8 + (At(x, p) - 0x30) >= 32 || !IsOctal(At(x, p + 1)) then p + 1
    else p + 2
  }

  // ---- The characters that escapes stand for ----

  function FinishedValue(x: Context, first: int, p: nat): CodePoint
    requires 0 <= first < 0x1_0000
  {
    if x.unicode && IsHighSurrogate(first) && IsLowSurrogate(At(x, p)) then Combine(first, At(x, p)) else first
  }

  function HexEscapeValue(x: Context, p: nat): CodePoint {
    if IsHex(At(x, p)) && IsHex(At(x, p + 1)) then HexValue(At(x, p)) * 16 + HexValue(At(x, p + 1)) else 0x78
  }

  function UnicodeEscapeValue(x: Context, p: nat): CodePoint
    requires UnicodeEscape(x, p).Some?
  {
    if x.unicode && At(x, p) == 0x7b then HexRunValue(x, p + 1, HexEnd(x, p + 1))
    else if !FourHex(x, p) then 0x75
    else if && x.unicode && IsHighSurrogate(FourHexValue(x, p)) && At(x, p + 4) == BACKSLASH && At(x, p + 5) == 0x75
            && FourHex(x, p + 6) && IsLowSurrogate(FourHexValue(x, p + 6)) then Combine(FourHexValue(x, p), FourHexValue(x, p + 6))
    else FourHexValue(x, p)
  }

  function ControlEscapeValue(x: Context, p: nat, inClass: bool): CodePoint {
    if IsLetter(At(x, p)) || (inClass && !x.unicode && (IsDigit(At(x, p)) || At(x, p) == 0x5f)) then At(x, p) % 32
    else BACKSLASH
  }

  function LegacyOctalValue(x: Context, first: int, p: nat): CodePoint
    requires IsOctal(first)
  {
    if !IsOctal(At(x, p)) then first - 0x30
    else
      var two := (first - 0x30) * 8 + (At(x, p) - 0x30);
      if two >= 32 || !IsOctal(At(x, p + 1)) then two else two * 8 + (At(x, p + 1) - 0x30)
  }

  /** The number after a backslash; None once it is too large to be any capture. */
  function DecimalReference(x: Context, value: Option<nat>, p: nat): Option<nat>
    decreases |x.units| - p
  {
    if !IsDigit(At(x, p)) then value
    else
      var next := if value.Some? then value.value * 10 + (At(x, p) - 0x30) else 0;
      DecimalReference(x, if value.Some? && next < I32_MAX then Some(next) else None, p + 1)
  }

  // ---- Group names; the cursor is after the opening angle bracket ----

  predicate IsIdentifier(x: Context, code: nat, first: bool) {
    if code < 0x80 then code in {0x24, 0x5f} || IsLetter(code) || (!first && IsDigit(code))
    else if first then x.tables.idStart(code)
    else code in {0x200c, 0x200d} || x.tables.idContinue(code)
  }

  function Utf8Length(code: nat): nat {
    if code < 0x80 then 1 else if code < 0x800 then 2 else if code < 0x1_0000 then 3 else 4
  }

  /** A unicode escape within a name: its code point and the cursor after it. */
  function NameEscape(x: Context, p: nat): (r: Option<(nat, nat)>)
    ensures r.Some? ==> r.value.0 <= MAX_CODE_POINT
  {
    if At(x, p) == 0x7b then
      var end := HexEnd(x, p + 1);
      if end == p + 1 || At(x, end) != 0x7d || HexRunValue(x, p + 1, end) > MAX_CODE_POINT then None
      else Some((HexRunValue(x, p + 1, end), end + 1))
    else if !FourHex(x, p) then None
    else if && IsHighSurrogate(FourHexValue(x, p)) && At(x, p + 4) == BACKSLASH && At(x, p + 5) == 0x75
            && FourHex(x, p + 6) && IsLowSurrogate(FourHexValue(x, p + 6)) then
      Some((0x1_0000 + (FourHexValue(x, p) - 0xd800) * 0x400 + (FourHexValue(x, p + 6) - 0xdc00), p + 10))
    else Some((FourHexValue(x, p), p + 4))
  }

  /** One character of a name. */
  function NameCharacter(x: Context, p: nat): (r: Option<(nat, nat)>)
    requires p < |x.units|
    ensures r.Some? ==> p < r.value.1 && r.value.0 <= MAX_CODE_POINT
  {
    if x.units[p] == BACKSLASH then
      (if At(x, p + 1) != 0x75 then None else NameEscape(x, p + 2))
    else if IsHighSurrogate(x.units[p]) && IsLowSurrogate(At(x, p + 1)) then
      Some((0x1_0000 + (x.units[p] - 0xd800) * 0x400 + (At(x, p + 1) - 0xdc00), p + 2))
    else Some((x.units[p], p + 1))
  }

  /** The cursor after the closing bracket of a name; `length` is its normalised length so far. */
  function GroupName(x: Context, p: nat, length: nat): (r: Option<nat>)
    ensures r.Some? ==> p < r.value <= |x.units|
    decreases |x.units| - p
  {
    if p >= |x.units| then None
    else if x.units[p] == 0x3e then (if length == 0 then None else Some(p + 1))
    else
      var c := NameCharacter(x, p);
      if c.None? || !IsIdentifier(x, c.value.0, length == 0) || length + 7 > 128 then None
      else GroupName(x, c.value.1, length + Utf8Length(c.value.0))
  }

  /** The normalised name itself. */
  function NameFrom(x: Context, p: nat, length: nat): Name
    requires GroupName(x, p, length).Some?
    decreases |x.units| - p
  {
    if x.units[p] == 0x3e then []
    else
      var (code, q) := NameCharacter(x, p).value;
      Utf16(code) + NameFrom(x, q, length + Utf8Length(code))
  }

  /** The name after an opening angle bracket. */
  function NameAt(x: Context, p: nat): Name
    requires GroupName(x, p, 0).Some?
  {
    NameFrom(x, p, 0)
  }

  /**
   * The rough scan of the pattern for the captures with a name. After a name that parses it goes on one
   * unit further than it should.
   */
  function Matching(x: Context, name: Name, p: nat, inside: bool, captures: nat): seq<nat>
    decreases |x.units| - p
  {
    if p >= |x.units| || captures >= CAPTURE_COUNT_MAX then []
    else if x.units[p] == BACKSLASH then Matching(x, name, p + 2, inside, captures)
    else if inside then Matching(x, name, p + 1, x.units[p] != CLOSE_CLASS, captures)
    else if x.units[p] != OPEN then Matching(x, name, p + 1, x.units[p] == OPEN_CLASS, captures)
    else if !NamedGroup(x.units, p) then
      Matching(x, name, p + 1, false, if PlainGroup(x.units, p) then captures + 1 else captures)
    else
      var end := GroupName(x, p + 3, 0);
      if end.None? then Matching(x, name, p + 4, false, captures + 1)
      else
        (if NameAt(x, p + 3) == name then [captures] else []) + Matching(x, name, end.value + 1, false, captures + 1)
  }

  // ---- What class escapes and items hold ----

  function DigitRanges(): Table {
    [CharacterRange(0x30, 0x39)]
  }

  function WordRanges(): Table {
    [CharacterRange(0x30, 0x39), CharacterRange(0x41, 0x5a), CharacterRange(0x5f, 0x5f), CharacterRange(0x61, 0x7a)]
  }

  function SpaceRanges(): Table {
    [CharacterRange(0x0009, 0x000d), CharacterRange(0x0020, 0x0020), CharacterRange(0x00a0, 0x00a0),
     CharacterRange(0x1680, 0x1680), CharacterRange(0x2000, 0x200a), CharacterRange(0x2028, 0x2029),
     CharacterRange(0x202f, 0x202f), CharacterRange(0x205f, 0x205f), CharacterRange(0x3000, 0x3000),
     CharacterRange(0xfeff, 0xfeff)]
  }

  /** The ranges of a class escape by its letter, in either case. */
  function EscapedRanges(letter: int): Table {
    if letter in {0x64, 0x44} then DigitRanges() else if letter in {0x73, 0x53} then SpaceRanges() else WordRanges()
  }

  function Fold(x: Context, c: CodePoint): CodePoint {
    if x.unicode then x.tables.fold(c) else if c < 0x1_0000 then x.tables.upper(c) else c
  }

  function Folding(x: Context): CodePoint -> CodePoint {
    (c: CodePoint) => Fold(x, c)
  }

  ghost function Folded(x: Context, ignoreCase: bool, characters: iset<CodePoint>): iset<CodePoint> {
    if ignoreCase then Image(Folding(x), characters) else characters
  }

  function MaxCharacter(x: Context): CodePoint {
    if x.unicode then MAX_CODE_POINT else 0xffff
  }

  /** One item of a class: a character, a class escape or its complement, or contents that are ready. */
  datatype ClassItem =
    | Single(value: CodePoint)
    | Escaped(ranges: Table)
    | Complemented(ranges: Table)
    | Prepared(set_: ClassSet)

  /** A class escape by its letter: lower case for the ranges, upper case for the complement. */
  function EscapedItem(letter: int): ClassItem {
    if letter in {0x44, 0x53, 0x57} then Complemented(EscapedRanges(letter)) else Escaped(EscapedRanges(letter))
  }

  /** What an item adds to a class without set notation. */
  ghost function ItemCharacters(x: Context, ignoreCase: bool, item: ClassItem): iset<CodePoint> {
    var all := Interval(0, MaxCharacter(x));
    match item
    case Single(value) => Folded(x, ignoreCase, Interval(value, value) * all)
    case Escaped(ranges) => Folded(x, ignoreCase, CharactersOf(ranges) * all)
    case Complemented(ranges) => Outside(Folded(x, ignoreCase, CharactersOf(ranges) * all), MaxCharacter(x))
    case Prepared(set_) => set_.characters * all
  }

  /** What an item adds to a class with set notation. */
  ghost function ItemSet(x: Context, ignoreCase: bool, item: ClassItem): ClassSet {
    match item
    case Single(value) => Plain(Folded(x, ignoreCase, Interval(value, value)))
    case Escaped(ranges) => Plain(Folded(x, ignoreCase, CharactersOf(ranges)))
    case Complemented(ranges) => Plain(Outside(Folded(x, ignoreCase, CharactersOf(ranges)), MAX_CODE_POINT))
    case Prepared(set_) => set_
  }

  // ---- Classes; the cursor is after the opening bracket ----

  /** The cursor after one class atom, and the item it is. */
  ghost function ClassAtom(x: Context, ignoreCase: bool, p: nat): (r: Option<(nat, ClassItem)>)
    ensures r.Some? ==> p < r.value.0
  {
    var unit := At(x, p);
    if unit == -1 then None
    else if unit != BACKSLASH then Some((FinishCodePoint(x, unit, p + 1), Single(FinishedValue(x, unit, p + 1))))
    else
      var escaped := At(x, p + 1);
      if escaped == -1 then None
      else if escaped in {0x64, 0x44, 0x73, 0x53, 0x77, 0x57} then Some((p + 2, EscapedItem(escaped)))
      else if escaped in {0x70, 0x50} && x.unicode then Ready(PropertyEscape(x, ignoreCase, escaped == 0x50, p + 2))
      else if escaped in {0x62, 0x66, 0x6e, 0x72, 0x74, 0x76} then Some((p + 2, Single(ControlLetter(escaped))))
      else if escaped == 0x63 then Character(ControlEscape(x, p + 2, p, true), ControlEscapeValue(x, p + 2, true))
      else if escaped == 0x78 then Character(HexEscape(x, p + 2), HexEscapeValue(x, p + 2))
      else if escaped == 0x75 then UnicodeCharacter(x, p + 2)
      else if escaped == 0x30 && x.unicode then (if IsDigit(At(x, p + 2)) then None else Some((p + 2, Single(0))))
      else if IsOctal(escaped) then
        if x.unicode then None else Some((LegacyOctal(x, escaped, p + 2), Single(LegacyOctalValue(x, escaped, p + 2))))
      else if escaped in {0x38, 0x39, 0x6b} then (if x.unicode then None else Some((p + 2, Single(escaped))))
      else if IsSyntaxCharacter(escaped) || escaped in {0x2f, 0x2d} then Some((p + 2, Single(escaped)))
      else if x.unicode then None
      else Some((FinishCodePoint(x, escaped, p + 2), Single(FinishedValue(x, escaped, p + 2))))
  }

  /** The escapes b, f, n, r, t and v. */
  function ControlLetter(letter: int): CodePoint {
    if letter == 0x62 then 0x08 else if letter == 0x66 then 0x0c else if letter == 0x6e then 0x0a
    else if letter == 0x72 then 0x0d else if letter == 0x74 then 0x09 else 0x0b
  }

  function Character(p: Option<nat>, value: CodePoint): Option<(nat, ClassItem)> {
    if p.Some? then Some((p.value, Single(value))) else None
  }

  function UnicodeCharacter(x: Context, p: nat): Option<(nat, ClassItem)> {
    var end := UnicodeEscape(x, p);
    if end.Some? then Some((end.value, Single(UnicodeEscapeValue(x, p)))) else None
  }

  function Ready(r: Option<(nat, ClassSet)>): Option<(nat, ClassItem)> {
    if r.Some? then Some((r.value.0, Prepared(r.value.1))) else None
  }

  /** One item of a class, or two with a dash between them: the cursor after it and what it adds. */
  ghost function ClassEntry(x: Context, ignoreCase: bool, p: nat): (r: Option<(nat, iset<CodePoint>)>)
    ensures r.Some? ==> p < r.value.0
  {
    var first := ClassAtom(x, ignoreCase, p);
    if first.None? then None
    else
      var (q, item) := first.value;
      if At(x, q) == 0x2d && At(x, q + 1) != CLOSE_CLASS then
        var second := ClassAtom(x, ignoreCase, q + 1);
        if second.None? then None
        else
          var range := RangeCharacters(x, ignoreCase, item, second.value.1);
          if range.None? then None else Some((second.value.0, range.value))
      else Some((q, ItemCharacters(x, ignoreCase, item)))
  }

  /** The items of a class without set notation, up to and past its closing bracket, and what they hold. */
  ghost function ClassItems(x: Context, ignoreCase: bool, p: nat, so: iset<CodePoint>): (r: Option<(nat, iset<CodePoint>)>)
    ensures r.Some? ==> p < r.value.0
    decreases |x.units| - p
  {
    if At(x, p) == -1 then None
    else if At(x, p) == CLOSE_CLASS then Some((p + 1, so))
    else
      var entry := ClassEntry(x, ignoreCase, p);
      if entry.None? then None else ClassItems(x, ignoreCase, entry.value.0, so + entry.value.1)
  }

  /** Two items with a dash between them: a range, or in legacy patterns three items. */
  ghost function RangeCharacters(x: Context, ignoreCase: bool, first: ClassItem, second: ClassItem): Option<iset<CodePoint>> {
    if first.Single? && second.Single? then
      if first.value > second.value then None
      else Some(Folded(x, ignoreCase, Interval(first.value, second.value) * Interval(0, MaxCharacter(x))))
    else if x.unicode then None
    else
      Some(ItemCharacters(x, ignoreCase, first) + ItemCharacters(x, ignoreCase, Single(0x2d))
           + ItemCharacters(x, ignoreCase, second))
  }

  // ---- Classes with set notation ----

  /** The cursor after one atom of a set, and the item it is. */
  ghost function SetAtom(x: Context, ignoreCase: bool, p: nat, inClass: bool, allowSets: bool): (r: Option<(nat, ClassItem)>)
    ensures r.Some? ==> p < r.value.0
    decreases |x.units| - p, 1
  {
    var unit := At(x, p);
    if unit == -1 then None
    else if unit != BACKSLASH then
      if IsDoublePunctuator(unit) && At(x, p + 1) == unit then None
      else if IsReservedPunctuator(unit) then None
      else Some((FinishCodePoint(x, unit, p + 1), Single(FinishedValue(x, unit, p + 1))))
    else
      var escaped := At(x, p + 1);
      if escaped == -1 then None
      else if allowSets && escaped in {0x64, 0x44, 0x73, 0x53, 0x77, 0x57} then Some((p + 2, EscapedItem(escaped)))
      else if allowSets && escaped in {0x70, 0x50} then Ready(PropertyEscape(x, ignoreCase, escaped == 0x50, p + 2))
      else if allowSets && inClass && escaped == 0x71 then
        if At(x, p + 2) != 0x7b then None else Ready(SetStrings(x, ignoreCase, p + 3, [], NOTHING))
      else if escaped in {0x62, 0x66, 0x6e, 0x72, 0x74, 0x76} then Some((p + 2, Single(ControlLetter(escaped))))
      else if escaped == 0x63 then Character(ControlEscape(x, p + 2, p, inClass), ControlEscapeValue(x, p + 2, inClass))
      else if escaped == 0x78 then Character(HexEscape(x, p + 2), HexEscapeValue(x, p + 2))
      else if escaped == 0x75 then UnicodeCharacter(x, p + 2)
      else if escaped == 0x30 then (if IsDigit(At(x, p + 2)) then None else Some((p + 2, Single(0))))
      else if inClass && escaped == 0x2d then Some((p + 2, Single(escaped)))
      else if IsSyntaxCharacter(escaped) || escaped == 0x2f then Some((p + 2, Single(escaped)))
      else None
  }

  /** One string of a disjunction, with case folded if need be. */
  function WithText(x: Context, ignoreCase: bool, s: Text, so: ClassSet): ClassSet {
    AddText(if ignoreCase then MapText(Folding(x), s) else s, so)
  }

  /** The strings of a disjunction, up to and past its closing brace; `s` is the string at the cursor so far. */
  ghost function SetStrings(x: Context, ignoreCase: bool, p: nat, s: Text, so: ClassSet): (r: Option<(nat, ClassSet)>)
    ensures r.Some? ==> p < r.value.0
    decreases |x.units| - p, 2
  {
    if At(x, p) == -1 then None
    else if At(x, p) == 0x7d then Some((p + 1, WithText(x, ignoreCase, s, so)))
    else if At(x, p) == 0x7c then SetStrings(x, ignoreCase, p + 1, [], WithText(x, ignoreCase, s, so))
    else
      var atom := SetAtom(x, ignoreCase, p, false, false);
      if atom.None? || !atom.value.1.Single? then None
      else SetStrings(x, ignoreCase, atom.value.0, s + [atom.value.1.value], so)
  }

  /** A class with set notation, after its opening bracket. */
  ghost function SetClass(x: Context, ignoreCase: bool, p: nat, depth: nat): (r: Option<(nat, ClassSet)>)
    ensures r.Some? ==> p < r.value.0
    decreases |x.units| - p, 4
  {
    if depth >= MAX_GROUP_NESTING then None
    else
      var start := if At(x, p) == 0x5e then p + 1 else p;
      var items := SetItems(x, ignoreCase, start, depth + 1, true, NOTHING);
      if items.None? || start == p then items
      else if items.value.1.strings != [] then None
      else Some((items.value.0, Plain(Outside(items.value.1.characters, MAX_CODE_POINT))))
  }

  ghost function SetOperand(x: Context, ignoreCase: bool, p: nat, depth: nat): (r: Option<(nat, ClassSet)>)
    ensures r.Some? ==> p < r.value.0
    decreases |x.units| - p, 3
  {
    if At(x, p) == OPEN_CLASS then SetClass(x, ignoreCase, p + 1, depth)
    else
      var atom := SetAtom(x, ignoreCase, p, true, true);
      if atom.None? then None else Some((atom.value.0, ItemSet(x, ignoreCase, atom.value.1)))
  }

  /** The operands of an operator chain, up to its closing bracket. */
  ghost function SetChain(x: Context, ignoreCase: bool, p: nat, depth: nat, operator: int, so: ClassSet): (r: Option<(nat, ClassSet)>)
    ensures r.Some? ==> p <= r.value.0
    decreases |x.units| - p, 4
  {
    if At(x, p) == CLOSE_CLASS then Some((p, so))
    else if At(x, p) != operator || At(x, p + 1) != operator || (operator == 0x26 && At(x, p + 2) == 0x26) then None
    else if p >= |x.units| then None
    else
      var operand := SetOperand(x, ignoreCase, p + 2, depth);
      if operand.None? then None
      else
        SetChain(x, ignoreCase, operand.value.0, depth, operator,
                 if operator == 0x26 then Intersect(so, operand.value.1) else Subtract(so, operand.value.1))
  }

  /** After an item: the end of a range, or the item itself and perhaps an operator chain. */
  ghost function AfterItem(x: Context, ignoreCase: bool, p: nat, q: nat, scalar: Option<CodePoint>, item: ClassSet,
                           nested: bool, depth: nat, first: bool, so: ClassSet): (r: Option<(nat, ClassSet)>)
    requires p < q && p < |x.units|
    ensures r.Some? ==> q <= r.value.0
    decreases |x.units| - p, 0
  {
    var subtraction := At(x, q) == 0x2d && At(x, q + 1) == 0x2d;
    if !nested && At(x, q) == 0x2d && At(x, q + 1) != CLOSE_CLASS && !(subtraction && first) then
      var end := SetAtom(x, ignoreCase, q + 1, true, true);
      if scalar.None? || end.None? || !end.value.1.Single? || scalar.value > end.value.1.value then None
      else
        Some((end.value.0, Unite(so, Plain(Folded(x, ignoreCase, Interval(scalar.value, end.value.1.value))))))
    else if first && At(x, q) == 0x26 && At(x, q + 1) == 0x26 && At(x, q + 2) != 0x26 then
      SetChain(x, ignoreCase, q, depth, 0x26, Unite(so, item))
    else if first && subtraction then SetChain(x, ignoreCase, q, depth, 0x2d, Unite(so, item))
    else Some((q, Unite(so, item)))
  }

  /** An item is one character, or it is not. */
  function Scalar(item: ClassItem): Option<CodePoint> {
    if item.Single? then Some(item.value) else None
  }

  /** One item: the cursor after it, its character if it is one, and what it holds. */
  ghost function SetItem(x: Context, ignoreCase: bool, p: nat, depth: nat): (r: Option<(nat, Option<CodePoint>, ClassSet)>)
    ensures r.Some? ==> p < r.value.0
    decreases |x.units| - p, 2
  {
    if At(x, p) == OPEN_CLASS then
      var class_ := SetClass(x, ignoreCase, p + 1, depth);
      if class_.None? then None else Some((class_.value.0, None, class_.value.1))
    else
      var atom := SetAtom(x, ignoreCase, p, true, true);
      if atom.None? then None else Some((atom.value.0, Scalar(atom.value.1), ItemSet(x, ignoreCase, atom.value.1)))
  }

  /** The items of a set, up to and past its closing bracket. */
  ghost function SetItems(x: Context, ignoreCase: bool, p: nat, depth: nat, first: bool, so: ClassSet): (r: Option<(nat, ClassSet)>)
    ensures r.Some? ==> p < r.value.0
    decreases |x.units| - p, 3
  {
    if At(x, p) == -1 then None
    else if At(x, p) == CLOSE_CLASS then Some((p + 1, so))
    else
      var item := SetItem(x, ignoreCase, p, depth);
      if item.None? then None
      else
        var (q, scalar, held) := item.value;
        var next := AfterItem(x, ignoreCase, p, q, scalar, held, At(x, p) == OPEN_CLASS, depth, first, so);
        if next.None? then None else SetItems(x, ignoreCase, next.value.0, depth, false, next.value.1)
  }

  /** A class after its opening bracket: the cursor after it and what is written in it. */
  ghost function CharacterClass(x: Context, ignoreCase: bool, p: nat, depth: nat): (r: Option<(nat, ClassSet)>)
    ensures r.Some? ==> p < r.value.0
  {
    if x.sets then SetClass(x, ignoreCase, p, depth)
    else
      var items := ClassItems(x, ignoreCase, if At(x, p) == 0x5e then p + 1 else p, iset{});
      if items.None? then None else Some((items.value.0, Plain(items.value.1)))
  }

  /** In set notation an inversion has been carried out already. */
  predicate Inverted(x: Context, p: nat) {
    !x.sets && At(x, p) == 0x5e
  }

  // ---- Atoms and groups ----

  /** A parsed named group: its name, the scope it was found in, and its capture. */
  datatype Entry = Entry(name: Name, scope: nat, capture: nat)

  /**
   * The cursor, the next capture number, the named groups so far, the scope that changes with every
   * alternative, and the names that were referred to before a group with that name was parsed, but for
   * references in atoms that are repeated at most zero times.
   */
  datatype State = State(position: nat, captures: nat, names: seq<Entry>, scope: nat, forward: set<Name>)

  const START := State(0, 1, [], 0, {})

  /** Scopes are counted in eight bits. */
  function NextScope(scope: nat): nat {
    (scope + 1) % 256
  }

  predicate Duplicate(s: State, name: Name) {
    exists i :: 0 <= i < |s.names| && s.names[i].scope == s.scope && s.names[i].name == name
  }

  function Resolve(names: seq<Entry>, name: Name): seq<nat> {
    if names == [] then []
    else (if names[0].name == name then [names[0].capture] else []) + Resolve(names[1..], name)
  }

  /** The captures a name refers to: those of the groups parsed so far, or else those the rough scan finds. */
  function References(x: Context, s: State, name: Name): seq<nat> {
    var parsed := Resolve(s.names, name);
    if parsed != [] then parsed else Matching(x, name, 0, false, 1)
  }

  function NamedReference(x: Context, s: State, p: nat): Option<State> {
    var name := if At(x, p) == LESS then GroupName(x, p + 1, 0) else None;
    if name.Some? && References(x, s, NameAt(x, p + 1)) != [] then Some(Referred(s, name.value, NameAt(x, p + 1)))
    else if x.unicode || x.hasNamed then None
    else Some(s.(position := p))
  }

  function Referred(s: State, p: nat, name: Name): State {
    s.(position := p, forward := if Resolve(s.names, name) == [] then s.forward + {name} else s.forward)
  }

  /** The cursor after an escape outside classes, and whether it may be quantified. */
  ghost function Escape(x: Context, m: Pattern.Modifiers, s: State, p: nat): Option<(State, bool)> {
    var escaped := At(x, p);
    if escaped == -1 then None
    else if escaped in {0x62, 0x42} then Some((s.(position := p + 1), false))
    else if escaped in {0x64, 0x44, 0x73, 0x53, 0x77, 0x57} then Some((s.(position := p + 1), true))
    else if escaped in {0x70, 0x50} then
      if x.unicode then Moved(s, Cursor(PropertyEscape(x, m.ignoreCase, escaped == 0x50, p + 1)))
      else Moved(s, Some(FinishCodePoint(x, escaped, p + 1)))
    else if escaped == 0x6b then Quantifiable(NamedReference(x, s, p + 1))
    else if 0x31 <= escaped <= 0x39 then DecimalEscape(x, s, escaped, p + 1)
    else if escaped == 0x30 then
      if x.unicode then (if IsDigit(At(x, p + 1)) then None else Moved(s, Some(p + 1)))
      else Moved(s, Some(LegacyOctal(x, escaped, p + 1)))
    else if escaped in {0x66, 0x6e, 0x72, 0x74, 0x76} then Moved(s, Some(p + 1))
    else if escaped == 0x63 then Moved(s, ControlEscape(x, p + 1, if p == 0 then 0 else p - 1, false))
    else if escaped == 0x78 then Moved(s, HexEscape(x, p + 1))
    else if escaped == 0x75 then Moved(s, UnicodeEscape(x, p + 1))
    else if IsSyntaxCharacter(escaped) || escaped == 0x2f then Moved(s, Some(p + 1))
    else if x.unicode then None
    else Moved(s, Some(FinishCodePoint(x, escaped, p + 1)))
  }

  function Moved(s: State, p: Option<nat>): Option<(State, bool)> {
    if p.Some? then Some((s.(position := p.value), true)) else None
  }

  function Cursor(r: Option<(nat, ClassSet)>): Option<nat> {
    if r.Some? then Some(r.value.0) else None
  }

  function Quantifiable(s: Option<State>): Option<(State, bool)> {
    if s.Some? then Some((s.value, true)) else None
  }

  function DecimalEscape(x: Context, s: State, first: int, p: nat): Option<(State, bool)>
    requires 0x31 <= first <= 0x39
  {
    var reference := DecimalReference(x, Some(first - 0x30), p);
    if reference.Some? && reference.value < x.total then Moved(s, Some(DigitsEnd(x, p)))
    else if x.unicode then None
    else if IsOctal(first) then Moved(s, Some(LegacyOctal(x, first, p)))
    else Moved(s, Some(p))
  }

  /** A repetition count, clamped. */
  function Clamped(x: Context, value: nat, p: nat): nat
    decreases |x.units| - p
  {
    if !IsDigit(At(x, p)) then value
    else
      var next := value * 10 + (At(x, p) - 0x30);
      Clamped(x, if next < Pattern.INFINITE_REPETITION then next else Pattern.INFINITE_REPETITION, p + 1)
  }

  /** The cursor after a quantifier, and the quantifier if there is one. */
  function Quantifier(x: Context, p: nat): (r: Option<(nat, Option<Pattern.Quantifier>)>)
    ensures r.Some? ==> p <= r.value.0
  {
    var unit := At(x, p);
    if unit == 0x2a then Repeated(x, p + 1, 0, None)
    else if unit == 0x2b then Repeated(x, p + 1, 1, None)
    else if unit == 0x3f then Repeated(x, p + 1, 0, Some(1))
    else if unit != 0x7b then Some((p, None))
    else if !IsDigit(At(x, p + 1)) then (if x.unicode then None else Some((p, None)))
    else
      var comma := DigitsEnd(x, p + 1);
      var end := if At(x, comma) == 0x2c then DigitsEnd(x, comma + 1) else comma;
      var minimum := Clamped(x, 0, p + 1);
      var maximum := if At(x, comma) != 0x2c then Some(minimum) else if end == comma + 1 then None else Some(Clamped(x, 0, comma + 1));
      if At(x, end) != 0x7d then (if x.unicode then None else Some((p, None)))
      else if maximum.Some? && maximum.value < minimum then None
      else Repeated(x, end + 1, minimum, maximum)
  }

  function Repeated(x: Context, p: nat, minimum: nat, maximum: Option<nat>): Option<(nat, Option<Pattern.Quantifier>)> {
    Some((Greediness(x, p), Some(Pattern.Quantifier(minimum, maximum, Greediness(x, p) == p))))
  }

  function Greediness(x: Context, p: nat): nat {
    if At(x, p) == QUESTION then p + 1 else p
  }

  /** Whether a brace quantifier stands here, where there is nothing to repeat. */
  predicate BraceQuantifier(x: Context, p: nat) {
    && At(x, p) == 0x7b && IsDigit(At(x, p + 1))
    && var minimum := DigitsEnd(x, p + 1);
       At(x, if At(x, minimum) == 0x2c then DigitsEnd(x, minimum + 1) else minimum) == 0x7d
  }

  lemma NoBrace(x: Context, p: nat)
    ensures At(x, p) != 0x7b ==> !BraceQuantifier(x, p)
  {
  }

  /** The cursor after modifier letters, each at most once. */
  function Modifiers(x: Context, p: nat, seen: set<int>): (r: Option<(nat, set<int>)>)
    ensures r.Some? ==> p <= r.value.0
    decreases |x.units| - p
  {
    var unit := At(x, p);
    if unit !in {0x69, 0x6d, 0x73} then Some((p, seen))
    else if unit in seen then None
    else Modifiers(x, p + 1, seen + {unit})
  }

  /** The cursor after the colon of a modifier group. */
  function ModifierHead(x: Context, p: nat): (r: Option<nat>)
    ensures r.Some? ==> p < r.value
  {
    var added := Modifiers(x, p, {});
    if added.None? then None
    else
      var q := added.value.0;
      var removed := if At(x, q) == 0x2d then Modifiers(x, q + 1, {}) else Some((q, {}));
      if removed.None? then None
      else if (added.value.1 == {} && removed.value.1 == {}) || added.value.1 * removed.value.1 != {} then None
      else if At(x, removed.value.0) != 0x3a then None
      else Some(removed.value.0 + 1)
  }

  function Updated(m: Pattern.Modifiers, add: set<int>, remove: set<int>): Pattern.Modifiers {
    Pattern.Modifiers((m.ignoreCase || 0x69 in add) && 0x69 !in remove,
                (m.multiline || 0x6d in add) && 0x6d !in remove,
                (m.dotAll || 0x73 in add) && 0x73 !in remove)
  }

  /** The modifiers inside a modifier group. */
  function HeadModifiers(x: Context, m: Pattern.Modifiers, p: nat): Pattern.Modifiers
    requires ModifierHead(x, p).Some?
  {
    var (q, add) := Modifiers(x, p, {}).value;
    Updated(m, add, if At(x, q) == 0x2d then Modifiers(x, q + 1, {}).value.1 else {})
  }

  predicate IsModifierGroup(x: Context, p: nat) {
    At(x, p) == QUESTION && At(x, p + 1) in {0x69, 0x6d, 0x73, 0x2d}
  }

  /** The modifiers inside a group. */
  function Inner(x: Context, m: Pattern.Modifiers, p: nat): Pattern.Modifiers {
    if IsModifierGroup(x, p) && ModifierHead(x, p + 1).Some? then HeadModifiers(x, m, p + 1) else m
  }

  function AllocateCapture(s: State, name: Option<Name>): Option<State> {
    if s.captures >= CAPTURE_COUNT_MAX then None
    else
      var entries := if name.Some? then [Entry(name.value, s.scope, s.captures)] else [];
      Some(s.(captures := s.captures + 1, names := s.names + entries))
  }

  /** The state inside a group, after its head; `p` is after its opening parenthesis. */
  function GroupHead(x: Context, s: State, p: nat): (r: Option<State>)
    ensures r.Some? ==> p <= r.value.position
  {
    if At(x, p) != QUESTION then AllocateCapture(s.(position := p), None)
    else
      var kind := At(x, p + 1);
      if kind in {0x3a, 0x3d, 0x21} then Some(s.(position := p + 2))
      else if kind == LESS then
        if At(x, p + 2) in {0x3d, 0x21} then Some(s.(position := p + 3))
        else
          var name := GroupName(x, p + 2, 0);
          if name.None? || Duplicate(s, NameAt(x, p + 2)) then None
          else AllocateCapture(s.(position := name.value), Some(NameAt(x, p + 2)))
      else if kind in {0x69, 0x6d, 0x73, 0x2d} then
        var colon := ModifierHead(x, p + 1);
        if colon.None? then None else Some(s.(position := colon.value))
      else None
  }

  /** Lookaheads may be quantified in legacy patterns, lookbehinds never. */
  predicate QuantifiableGroup(x: Context, p: nat) {
    if At(x, p) != QUESTION then true
    else if At(x, p + 1) in {0x3d, 0x21} then !x.unicode
    else if At(x, p + 1) == LESS && At(x, p + 2) in {0x3d, 0x21} then false
    else true
  }

  ghost function Atom(x: Context, m: Pattern.Modifiers, s: State, depth: nat): (r: Option<(State, bool)>)
    ensures r.Some? ==> s.position < r.value.0.position
    decreases |x.units| - s.position, 0
  {
    var p := s.position;
    var unit := At(x, p);
    if unit == -1 || unit == CLOSE then None
    else if unit == 0x2e then Some((s.(position := p + 1), true))
    else if unit in {0x5e, 0x24} then Some((s.(position := p + 1), false))
    else if unit == OPEN then
      var after := Group(x, m, s, p + 1, depth);
      if after.None? then None else Some((after.value, QuantifiableGroup(x, p + 1)))
    else if unit == OPEN_CLASS then Moved(s, Cursor(CharacterClass(x, m.ignoreCase, p + 1, depth)))
    else if unit == BACKSLASH then Escape(x, m, s, p + 1)
    else if x.unicode && unit in {CLOSE_CLASS, 0x7d, 0x7b} then None
    else Moved(s, Some(FinishCodePoint(x, unit, p + 1)))
  }

  /** A group, after its opening parenthesis. */
  ghost function Group(x: Context, m: Pattern.Modifiers, s: State, p: nat, depth: nat): (r: Option<State>)
    ensures r.Some? ==> p < r.value.position
    decreases |x.units| - p, 4
  {
    if depth >= MAX_GROUP_NESTING then None
    else
      var head := GroupHead(x, s, p);
      if head.None? then None
      else
        var body := Disjunction(x, Inner(x, m, p), head.value, true, depth + 1);
        if body.None? || At(x, body.value.position) != CLOSE then None
        else Some(body.value.(position := body.value.position + 1))
  }

  ghost function Disjunction(x: Context, m: Pattern.Modifiers, s: State, inGroup: bool, depth: nat): (r: Option<State>)
    ensures r.Some? ==> s.position <= r.value.position
    decreases |x.units| - s.position, 3
  {
    var sequence := Sequence(x, m, s, inGroup, depth);
    if sequence.None? || At(x, sequence.value.position) != 0x7c then sequence
    else Disjunction(x, m, NextAlternative(sequence.value), inGroup, depth)
  }

  /** The state behind a quantifier: nothing refers to a name in an atom that no code is emitted for. */
  function Quantified(before: State, after: State, p: nat, quantifier: Option<Pattern.Quantifier>): State {
    var dropped := quantifier.Some? && quantifier.value.maximum == Some(0);
    after.(position := p, forward := if dropped then before.forward else after.forward)
  }

  function NextAlternative(s: State): State {
    s.(position := s.position + 1, scope := NextScope(s.scope))
  }

  ghost function Sequence(x: Context, m: Pattern.Modifiers, s: State, inGroup: bool, depth: nat): (r: Option<State>)
    ensures r.Some? ==> s.position <= r.value.position
    decreases |x.units| - s.position, 2
  {
    var unit := At(x, s.position);
    if unit == -1 || unit == 0x7c || (inGroup && unit == CLOSE) then Some(s)
    else if unit in {0x2a, 0x2b, 0x3f} then None
    else if !x.unicode && BraceQuantifier(x, s.position) then None
    else
      var atom := Atom(x, m, s, depth);
      if atom.None? then None
      else
        var (after, quantifiable) := atom.value;
        if !quantifiable && At(x, after.position) == 0x7b then Sequence(x, m, after, inGroup, depth)
        else
          var quantifier := Quantifier(x, after.position);
          if quantifier.None? || (quantifier.value.1.Some? && !quantifiable) then None
          else Sequence(x, m, Quantified(s, after, quantifier.value.0, quantifier.value.1), inGroup, depth)
  }

  /** The final state of an accepted pattern. */
  ghost function Parse(x: Context, m: Pattern.Modifiers): Option<State> {
    var end := Disjunction(x, m, START, false, 0);
    if end.None? || end.value.position != |x.units| then None else end
  }
}
