/**
 * The grammar of patterns after sections 22.2.1 and B.1.2 of ECMA-262: which stretches of a text are which parts of a
 * pattern, and what they stand for. A layout says where the parts of a text end. The limits on nesting, captures,
 * counts and names are those of the source, which also lacks the escapes of set punctuators.
 */
module Grammar {
  import opened Basics
  import opened Characters
  import opened ClassContents
  import S = Syntax
  import P = Pattern

  type Context = S.Context

  /** Where the text has no ASCII character. */
  const NONE: char := '\U{10FFFF}'

  function Glyph(x: Context, p: nat): char {
    if p < |x.units| && x.units[p] < 0x80 then x.units[p] as char else NONE
  }

  // ---- Numbers ----

  function DigitValue(c: char): nat {
    if '0' <= c <= '9' then c as int - '0' as int
    else if 'a' <= c <= 'f' then 10 + (c as int - 'a' as int)
    else if 'A' <= c <= 'F' then 10 + (c as int - 'A' as int)
    else 16
  }

  predicate Digits(x: Context, p: nat, q: nat, base: nat) {
    p <= q && forall i :: p <= i < q ==> DigitValue(Glyph(x, i)) < base
  }

  function Numeral(x: Context, p: nat, q: nat, base: nat): nat
    requires Digits(x, p, q, base)
  {
    if p == q then 0 else Numeral(x, p, q - 1, base) * base + DigitValue(Glyph(x, q - 1))
  }

  /** All the decimal digits that stand here. */
  predicate Decimal(x: Context, p: nat, q: nat) {
    p < q && Digits(x, p, q, 10) && DigitValue(Glyph(x, q)) >= 10
  }

  // ---- Characters ----

  /** A character that stands for itself, a surrogate pair being one in Unicode mode. */
  predicate Stands(x: Context, p: nat, q: nat, c: nat) {
    ReadCharacter(x.units, p, x.unicode) == Some(Reading(c, q))
  }

  predicate IsSyntax(c: char) {
    c in {'^', '$', '\\', '.', '*', '+', '?', '(', ')', '[', ']', '{', '}', '|'}
  }

  predicate IsAsciiLetter(c: char) {
    'a' <= c <= 'z' || 'A' <= c <= 'Z'
  }

  /** A number after a backslash that is the number of a group. */
  predicate Refers(x: Context, p: nat, q: nat) {
    && '1' <= Glyph(x, p) <= '9' && Decimal(x, p, q)
    && Numeral(x, p, q, 10) < x.total && Numeral(x, p, q, 10) < 0x7fff_ffff
  }

  ghost predicate IsReference(x: Context, p: nat) {
    exists q :: Refers(x, p, q)
  }

  // What follows a backslash, from `p` to `q`, and stands for the character `c`.

  predicate LetterEscape(x: Context, p: nat, q: nat, inClass: bool, c: nat) {
    && q == p + 1
    && match Glyph(x, p) {
      case 't' => c == 0x09
      case 'n' => c == 0x0a
      case 'v' => c == 0x0b
      case 'f' => c == 0x0c
      case 'r' => c == 0x0d
      case 'b' => inClass && c == 0x08
      case _ => false
    }
  }

  predicate IsControl(x: Context, p: nat, inClass: bool) {
    var c := Glyph(x, p);
    IsAsciiLetter(c) || (inClass && !x.unicode && ('0' <= c <= '9' || c == '_'))
  }

  predicate ControlEscape(x: Context, p: nat, q: nat, inClass: bool, c: nat) {
    Glyph(x, p) == 'c' && q == p + 2 && IsControl(x, p + 1, inClass) && c == Glyph(x, p + 1) as int % 32
  }

  predicate HexEscape(x: Context, p: nat, q: nat, c: nat) {
    Glyph(x, p) == 'x' && q == p + 3 && Digits(x, p + 1, q, 16) && c == Numeral(x, p + 1, q, 16)
  }

  predicate FourHex(x: Context, p: nat) {
    Glyph(x, p) == 'u' && Digits(x, p + 1, p + 5, 16)
  }

  /** Two escapes that together are a surrogate pair. */
  predicate PairEscape(x: Context, p: nat) {
    && FourHex(x, p) && IsHighSurrogate(Numeral(x, p + 1, p + 5, 16)) && Glyph(x, p + 5) == '\\'
    && FourHex(x, p + 6) && IsLowSurrogate(Numeral(x, p + 7, p + 11, 16))
  }

  predicate UnicodeEscape(x: Context, p: nat, q: nat, c: nat) {
    if x.unicode && PairEscape(x, p) then
      q == p + 11 && c <= MAX_CODE_POINT && Utf16(c) == [Numeral(x, p + 1, p + 5, 16), Numeral(x, p + 7, p + 11, 16)]
    else if FourHex(x, p) then q == p + 5 && c == Numeral(x, p + 1, q, 16)
    else
      && x.unicode && Glyph(x, p) == 'u' && Glyph(x, p + 1) == '{' && p + 3 < q && Glyph(x, q - 1) == '}'
      && Digits(x, p + 2, q - 1, 16) && c == Numeral(x, p + 2, q - 1, 16) <= MAX_CODE_POINT
  }

  /** As many octal digits as make a number below 256. */
  predicate OctalEscape(x: Context, p: nat, q: nat, c: nat) {
    && p < q <= p + 3 && Digits(x, p, q, 8) && c == Numeral(x, p, q, 8) < 256
    && !(q < p + 3 && Digits(x, p, q + 1, 8) && Numeral(x, p, q + 1, 8) < 256)
  }

  /** Characters that keep their meaning behind a backslash in legacy patterns. */
  ghost predicate Unaltered(x: Context, p: nat, inClass: bool) {
    var c := Glyph(x, p);
    && c !in {'b', 'd', 'D', 's', 'S', 'w', 'W', 'f', 'n', 'r', 't', 'v', 'c'} && !('0' <= c <= '7')
    && !(c == 'x' && Digits(x, p + 1, p + 3, 16)) && !FourHex(x, p)
    && (!inClass ==> c !in {'B', 'k'} && !IsReference(x, p))
  }

  ghost predicate Escapes(x: Context, p: nat, q: nat, inClass: bool, c: nat) {
    || LetterEscape(x, p, q, inClass, c)
    || ControlEscape(x, p, q, inClass, c)
    || HexEscape(x, p, q, c)
    || UnicodeEscape(x, p, q, c)
    || (x.unicode && Glyph(x, p) == '0' && q == p + 1 && DigitValue(Glyph(x, q)) >= 10 && c == 0)
    || (!x.unicode && OctalEscape(x, p, q, c) && (inClass || !IsReference(x, p)))
    || (q == p + 1 && (IsSyntax(Glyph(x, p)) || Glyph(x, p) == '/' || (inClass && Glyph(x, p) == '-')) && Stands(x, p, q, c))
    || (!x.unicode && Unaltered(x, p, inClass) && Stands(x, p, q, c))
    // A backslash before the letter c and no control character stands for itself.
    || (!x.unicode && q == p && Glyph(x, p) == 'c' && !IsControl(x, p + 1, inClass) && c == '\\' as int)
  }

  /** A character outside classes. */
  ghost predicate Literal(x: Context, p: nat, q: nat, c: nat) {
    || (Stands(x, p, q, c) && !IsSyntax(Glyph(x, p)))
    || (!x.unicode && Stands(x, p, q, c) && (Glyph(x, p) in {']', '}'} || (Glyph(x, p) == '{' && !IsBraces(x, p))))
    || (Glyph(x, p) == '\\' && Escapes(x, p + 1, q, false, c))
  }

  /** A character in a class. */
  ghost predicate ClassCharacter(x: Context, p: nat, q: nat, c: nat) {
    || (Stands(x, p, q, c) && Glyph(x, p) !in {'\\', ']'})
    || (Glyph(x, p) == '\\' && Escapes(x, p + 1, q, true, c))
  }

  // ---- Quantifiers ----

  /** One or two counts in braces. `comma` is where the first of them ends. */
  predicate Braces(x: Context, p: nat, comma: nat, q: nat) {
    && Glyph(x, p) == '{' && Decimal(x, p + 1, comma) && comma < q && Glyph(x, q - 1) == '}'
    && (q == comma + 1 || (Glyph(x, comma) == ',' && (q == comma + 2 || Decimal(x, comma + 1, q - 1))))
  }

  ghost predicate IsBraces(x: Context, p: nat) {
    exists comma, q :: Braces(x, p, comma, q)
  }

  function Count(x: Context, p: nat, q: nat): nat
    requires Digits(x, p, q, 10)
  {
    var n := Numeral(x, p, q, 10);
    if n <= P.INFINITE_REPETITION then n else P.INFINITE_REPETITION
  }

  /** The bounds of a quantifier without the mark of a lazy one; `comma` matters only within braces. */
  predicate Bounds(x: Context, p: nat, comma: nat, q: nat, minimum: nat, maximum: Option<nat>) {
    match Glyph(x, p)
    case '*' => q == p + 1 && minimum == 0 && maximum == None
    case '+' => q == p + 1 && minimum == 1 && maximum == None
    case '?' => q == p + 1 && minimum == 0 && maximum == Some(1)
    case _ =>
      && Braces(x, p, comma, q) && minimum == Count(x, p + 1, comma)
      && maximum == (if q == comma + 1 then Some(minimum) else if q == comma + 2 then None else Some(Count(x, comma + 1, q - 1)))
      && (maximum.Some? ==> minimum <= maximum.value)
  }

  /** A quantifier from `p` to `q`. */
  predicate Quantifier(x: Context, p: nat, comma: nat, q: nat, quantifier: P.Quantifier) {
    var core := if quantifier.greedy then q else q - 1;
    && p < core && Bounds(x, p, comma, core, quantifier.minimum, quantifier.maximum)
    && (Glyph(x, core) == '?' <==> !quantifier.greedy)
  }

  /** No quantifier begins here. */
  ghost predicate NoQuantifier(x: Context, p: nat) {
    Glyph(x, p) !in {'*', '+', '?'} && (Glyph(x, p) == '{' ==> !x.unicode && !IsBraces(x, p))
  }

  // ---- Sets of characters ----

  function CaseOf(x: Context, c: CodePoint): CodePoint {
    if x.unicode then x.tables.fold(c) else if c <= 0xffff then x.tables.upper(c) else c
  }

  ghost function Folded(x: Context, ignoreCase: bool, characters: iset<CodePoint>): iset<CodePoint> {
    if ignoreCase then iset c: CodePoint | c in characters :: CaseOf(x, c) else characters
  }

  ghost function Between(from: CodePoint, to: CodePoint): iset<CodePoint> {
    iset c: CodePoint | Within(from, to, c)
  }

  predicate Within(from: nat, to: nat, c: nat) {
    from <= c <= to
  }

  /** The characters of a class escape, by its letter in either case. */
  ghost function Kind(letter: char): iset<CodePoint> {
    if letter in {'d', 'D'} then Between('0' as int, '9' as int)
    else if letter in {'s', 'S'} then iset c: CodePoint | IsSpace(c)
    else Between('a' as int, 'z' as int) + Between('A' as int, 'Z' as int) + Between('0' as int, '9' as int) + iset{'_' as int}
  }

  predicate IsKind(letter: char) {
    letter in {'d', 'D', 's', 'S', 'w', 'W'}
  }

  predicate IsUpper(letter: char) {
    'A' <= letter <= 'Z'
  }

  function LastCharacter(x: Context): CodePoint {
    if x.unicode then MAX_CODE_POINT else 0xffff
  }

  /** What a class escape adds to a class. */
  ghost function KindIn(x: Context, ignoreCase: bool, letter: char): iset<CodePoint> {
    var held := Folded(x, ignoreCase, Kind(letter));
    if IsUpper(letter) then Between(0, LastCharacter(x)) - held else held
  }

  // ---- Sets of strings, a character being a string of its own ----

  ghost function Singles(characters: iset<CodePoint>): iset<Text> {
    iset t: Text | |t| == 1 && t[0] in characters
  }

  ghost function CharactersIn(texts: iset<Text>): iset<CodePoint> {
    iset c: CodePoint | [c] in texts
  }

  ghost function FoldedTexts(x: Context, ignoreCase: bool, texts: iset<Text>): iset<Text> {
    if ignoreCase then iset t: Text | t in texts :: FoldedText(x, true, t) else texts
  }

  function FoldedText(x: Context, ignoreCase: bool, text: Text): Text {
    if ignoreCase then seq(|text|, i requires 0 <= i < |text| => CaseOf(x, text[i])) else text
  }

  /** Different strings in lexicographic order. */
  predicate Ascending(texts: seq<seq<nat>>) {
    forall i, j :: 0 <= i < j < |texts| ==> texts[i] != texts[j] && P.LexicographicLeq(texts[i], texts[j])
  }

  /** The class has exactly these members. */
  ghost predicate Holds(class_: P.CharacterClass, texts: iset<Text>) {
    && Denote(class_.ranges, CharactersIn(texts))
    && Ascending(class_.strings) && (forall t :: t in class_.strings ==> forall c :: c in t ==> c <= MAX_CODE_POINT)
    && (forall t: Text :: t in class_.strings <==> t in texts && |t| != 1)
  }

  // ---- Properties ----

  predicate IsWordGlyph(c: char) {
    IsAsciiLetter(c) || '0' <= c <= '9' || c == '_'
  }

  /** All the word characters that stand here, not too many. */
  predicate Word(x: Context, p: nat, q: nat) {
    p <= q <= p + 63 && (forall i :: p <= i < q ==> IsWordGlyph(Glyph(x, i))) && !IsWordGlyph(Glyph(x, q))
  }

  /** A property escape behind a backslash: its name from `p + 2` to `middle`, its value up to the closing brace. */
  predicate PropertyText(x: Context, p: nat, middle: nat, q: nat) {
    && Glyph(x, p) in {'p', 'P'} && Glyph(x, p + 1) == '{' && Word(x, p + 2, middle) && middle < q && Glyph(x, q - 1) == '}'
    && if Glyph(x, middle) == '=' then middle + 1 < q && Word(x, middle + 1, q - 1) else q == middle + 1
  }

  predicate Equals(units: seq<Unit>, text: string) {
    |units| == |text| && forall i :: 0 <= i < |text| ==> units[i] == text[i] as int
  }

  /** The table of a property of characters. */
  function TableOf(x: Context, name: seq<Unit>, value: seq<Unit>): Option<S.Table> {
    if Equals(name, "Script") || Equals(name, "sc") then x.tables.script(value, false)
    else if Equals(name, "Script_Extensions") || Equals(name, "scx") then x.tables.script(value, true)
    else if Equals(name, "General_Category") || Equals(name, "gc") then x.tables.category(value)
    else if value != [] then None
    else if x.tables.category(name).Some? then x.tables.category(name)
    else x.tables.binary(name)
  }

  predicate TakesValue(name: seq<Unit>) {
    || Equals(name, "Script") || Equals(name, "sc") || Equals(name, "Script_Extensions") || Equals(name, "scx")
    || Equals(name, "General_Category") || Equals(name, "gc")
  }

  /** What a property escape holds: with set notation perhaps strings, and the case folded before the complement. */
  ghost predicate PropertyHolds(x: Context, ignoreCase: bool, inverted: bool, name: seq<Unit>, value: seq<Unit>, texts: iset<Text>) {
    var table := TableOf(x, name, value);
    if table.Some? then
      var characters := CharactersOf(table.value);
      texts == Singles(
        if !inverted then Folded(x, ignoreCase, characters)
        else if x.sets then Between(0, MAX_CODE_POINT) - Folded(x, ignoreCase, characters)
        else Folded(x, ignoreCase, Between(0, MAX_CODE_POINT) - characters))
    else
      && x.sets && !inverted && value == [] && !TakesValue(name) && x.tables.sequences(name).Some?
      && texts == FoldedTexts(x, ignoreCase, iset t | t in x.tables.sequences(name).value)
  }

  ghost predicate Property(x: Context, ignoreCase: bool, p: nat, middle: nat, q: nat, texts: iset<Text>) {
    && PropertyText(x, p, middle, q)
    && PropertyHolds(x, ignoreCase, Glyph(x, p) == 'P', x.units[p + 2..middle],
                     if q == middle + 1 then [] else x.units[middle + 1..q - 1], texts)
  }

  // ---- Classes without set notation ----

  datatype Item = Lone(c: CodePoint) | Escape(letter: char) | PropertyItem(held: iset<CodePoint>, middle: nat)

  /** One item, or two with a dash between them. */
  datatype ClassPart = One(item: Item, end: nat) | Dash(first: Item, dash: nat, second: Item, end: nat)

  ghost predicate ItemLaid(x: Context, ignoreCase: bool, item: Item, p: nat, q: nat) {
    match item
    case Lone(c) => ClassCharacter(x, p, q, c)
    case Escape(letter) => Glyph(x, p) == '\\' && Glyph(x, p + 1) == letter && q == p + 2 && IsKind(letter)
    case PropertyItem(held, middle) =>
      x.unicode && Glyph(x, p) == '\\' && Property(x, ignoreCase, p + 1, middle, q, Singles(held))
  }

  ghost function ItemHolds(x: Context, ignoreCase: bool, item: Item): iset<CodePoint> {
    match item
    case Lone(c) => Folded(x, ignoreCase, iset{c})
    case Escape(letter) => KindIn(x, ignoreCase, letter)
    case PropertyItem(held, _) => held
  }

  ghost predicate PartLaid(x: Context, ignoreCase: bool, part: ClassPart, p: nat) {
    match part
    case One(item, end) => ItemLaid(x, ignoreCase, item, p, end) && !(Glyph(x, end) == '-' && Glyph(x, end + 1) != ']')
    case Dash(first, dash, second, end) =>
      && ItemLaid(x, ignoreCase, first, p, dash) && Glyph(x, dash) == '-' && Glyph(x, dash + 1) != ']'
      && ItemLaid(x, ignoreCase, second, dash + 1, end)
      && if first.Lone? && second.Lone? then first.c <= second.c else !x.unicode
  }

  /** A range, or in legacy patterns the two items and the dash. */
  ghost function PartHolds(x: Context, ignoreCase: bool, part: ClassPart): iset<CodePoint> {
    match part
    case One(item, _) => ItemHolds(x, ignoreCase, item)
    case Dash(first, _, second, _) =>
      if first.Lone? && second.Lone? then Folded(x, ignoreCase, Between(first.c, second.c))
      else ItemHolds(x, ignoreCase, first) + Folded(x, ignoreCase, iset{'-' as int}) + ItemHolds(x, ignoreCase, second)
  }

  ghost predicate PartsLaid(x: Context, ignoreCase: bool, parts: seq<ClassPart>, p: nat, q: nat) {
    if parts == [] then p == q
    else PartLaid(x, ignoreCase, parts[0], p) && Glyph(x, p) != ']' && PartsLaid(x, ignoreCase, parts[1..], parts[0].end, q)
  }

  ghost function PartsHold(x: Context, ignoreCase: bool, parts: seq<ClassPart>): iset<CodePoint> {
    if parts == [] then iset{} else PartHolds(x, ignoreCase, parts[0]) + PartsHold(x, ignoreCase, parts[1..])
  }

  /** A class from its opening bracket at `p` to behind its closing one at `q`. */
  ghost predicate ClassLaid(x: Context, ignoreCase: bool, class_: P.CharacterClass, parts: seq<ClassPart>, p: nat, q: nat) {
    && !x.sets && Glyph(x, p) == '[' && (class_.inverted <==> Glyph(x, p + 1) == '^')
    && p + 1 < q && Glyph(x, q - 1) == ']'
    && PartsLaid(x, ignoreCase, parts, if class_.inverted then p + 2 else p + 1, q - 1)
    && Holds(class_, Singles(PartsHold(x, ignoreCase, parts)))
  }

  // ---- Classes with set notation ----

  /** A character and where it ends. */
  datatype Spelt = Spelt(c: CodePoint, end: nat)

  datatype Set = Set(inverted: bool, body: Body, end: nat)

  /** A union, or operands with `&&` or `--` between them. */
  datatype Body = Union(parts: seq<SetPart>) | Chain(operator: char, first: Operand, rest: seq<Operand>)

  datatype SetPart = Member(operand: Operand) | Range(from: Spelt, to: Spelt)

  datatype Operand =
    | Single(c: CodePoint, end: nat)
    | KindOf(letter: char, end: nat)
    | PropertyOf(texts: iset<Text>, middle: nat, end: nat)
    | Strings(strings: seq<seq<Spelt>>, end: nat)
    | Nested(inner: Set)

  function OperandEnd(operand: Operand): nat {
    if operand.Nested? then operand.inner.end else operand.end
  }

  function PartEnd(part: SetPart): nat {
    if part.Member? then OperandEnd(part.operand) else part.to.end
  }

  predicate IsDouble(c: char) {
    c in {'&', '!', '#', '$', '%', '*', '+', ',', '.', ':', ';', '<', '=', '>', '?', '@', '^', '`', '~'}
  }

  /** A character in a class with set notation, or in a string of one. */
  predicate SetCharacter(x: Context, p: nat, q: nat, inClass: bool, c: nat) {
    var g := Glyph(x, p);
    if g == '\\' then
      || LetterEscape(x, p + 1, q, true, c)
      || ControlEscape(x, p + 1, q, inClass, c)
      || HexEscape(x, p + 1, q, c)
      || UnicodeEscape(x, p + 1, q, c)
      || (Glyph(x, p + 1) == '0' && q == p + 2 && DigitValue(Glyph(x, q)) >= 10 && c == 0)
      || (&& q == p + 2 && (IsSyntax(Glyph(x, p + 1)) || Glyph(x, p + 1) == '/' || (inClass && Glyph(x, p + 1) == '-'))
          && Stands(x, p + 1, q, c))
    else
      && Stands(x, p, q, c) && g !in {'(', ')', '[', ']', '{', '}', '/', '-', '|'}
      && !(IsDouble(g) && Glyph(x, p + 1) == g)
  }

  /** The characters of a string from `p` to `q`. */
  predicate StringLaid(x: Context, spelt: seq<Spelt>, p: nat, q: nat) {
    if spelt == [] then p == q
    else
      && Glyph(x, p) !in {'|', '}'} && SetCharacter(x, p, spelt[0].end, false, spelt[0].c)
      && StringLaid(x, spelt[1..], spelt[0].end, q)
  }

  function TextOf(spelt: seq<Spelt>): (r: Text)
    ensures |r| == |spelt|
  {
    seq(|spelt|, i requires 0 <= i < |spelt| => spelt[i].c)
  }

  function StringEnd(spelt: seq<Spelt>, p: nat): nat {
    if spelt == [] then p else spelt[|spelt| - 1].end
  }

  /** Strings with bars between them, up to and past a closing brace. */
  predicate StringsLaid(x: Context, strings: seq<seq<Spelt>>, p: nat, q: nat) {
    && strings != []
    && var end := StringEnd(strings[0], p);
       && StringLaid(x, strings[0], p, end)
       && if |strings| == 1 then Glyph(x, end) == '}' && q == end + 1
          else Glyph(x, end) == '|' && StringsLaid(x, strings[1..], end + 1, q)
  }

  ghost predicate OperandLaid(x: Context, ignoreCase: bool, operand: Operand, p: nat, depth: nat)
    decreases operand
  {
    match operand
    case Single(c, end) => SetCharacter(x, p, end, true, c)
    case KindOf(letter, end) => Glyph(x, p) == '\\' && Glyph(x, p + 1) == letter && end == p + 2 && IsKind(letter)
    case PropertyOf(texts, middle, end) => Glyph(x, p) == '\\' && Property(x, ignoreCase, p + 1, middle, end, texts)
    case Strings(strings, end) =>
      Glyph(x, p) == '\\' && Glyph(x, p + 1) == 'q' && Glyph(x, p + 2) == '{' && StringsLaid(x, strings, p + 3, end)
    case Nested(inner) => Glyph(x, p) == '[' && SetLaid(x, ignoreCase, inner, p + 1, depth)
  }

  /** A set, after its opening bracket. An inverted one has no strings. */
  ghost predicate SetLaid(x: Context, ignoreCase: bool, set_: Set, p: nat, depth: nat)
    decreases set_
  {
    var start := if set_.inverted then p + 1 else p;
    && depth < 256 && (set_.inverted <==> Glyph(x, p) == '^')
    && 0 < set_.end && Glyph(x, set_.end - 1) == ']'
    && BodyLaid(x, ignoreCase, set_.body, start, set_.end - 1, depth + 1)
    && (set_.inverted ==> forall t :: t in BodyTexts(x, ignoreCase, set_.body) ==> |t| == 1)
  }

  ghost predicate BodyLaid(x: Context, ignoreCase: bool, body: Body, p: nat, q: nat, depth: nat)
    decreases body
  {
    match body
    case Union(parts) => UnionLaid(x, ignoreCase, parts, p, q, depth)
    case Chain(operator, first, rest) =>
      && operator in {'&', '-'} && rest != [] && OperandLaid(x, ignoreCase, first, p, depth)
      && ChainLaid(x, ignoreCase, operator, rest, OperandEnd(first), q, depth)
  }

  ghost predicate UnionLaid(x: Context, ignoreCase: bool, parts: seq<SetPart>, p: nat, q: nat, depth: nat)
    decreases parts
  {
    if parts == [] then p == q
    else
      && SetPartLaid(x, ignoreCase, parts[0], p, depth)
      && UnionLaid(x, ignoreCase, parts[1..], PartEnd(parts[0]), q, depth)
  }

  ghost predicate SetPartLaid(x: Context, ignoreCase: bool, part: SetPart, p: nat, depth: nat)
    decreases part
  {
    match part
    case Member(operand) => OperandLaid(x, ignoreCase, operand, p, depth)
    case Range(from, to) =>
      && SetCharacter(x, p, from.end, true, from.c) && Glyph(x, from.end) == '-'
      && SetCharacter(x, from.end + 1, to.end, true, to.c) && from.c <= to.c
  }

  ghost predicate ChainLaid(x: Context, ignoreCase: bool, operator: char, rest: seq<Operand>, p: nat, q: nat, depth: nat)
    decreases rest
  {
    if rest == [] then p == q
    else
      && Glyph(x, p) == operator == Glyph(x, p + 1) && (operator == '&' ==> Glyph(x, p + 2) != '&')
      && OperandLaid(x, ignoreCase, rest[0], p + 2, depth)
      && ChainLaid(x, ignoreCase, operator, rest[1..], OperandEnd(rest[0]), q, depth)
  }

  // What sets hold.

  ghost function OperandTexts(x: Context, ignoreCase: bool, operand: Operand): iset<Text>
    decreases operand
  {
    match operand
    case Single(c, _) => Singles(Folded(x, ignoreCase, iset{c}))
    case KindOf(letter, _) => Singles(KindIn(x, ignoreCase, letter))
    case PropertyOf(texts, _, _) => texts
    case Strings(strings, _) => iset i | 0 <= i < |strings| :: FoldedText(x, ignoreCase, TextOf(strings[i]))
    case Nested(inner) => SetTexts(x, ignoreCase, inner)
  }

  ghost function SetTexts(x: Context, ignoreCase: bool, set_: Set): iset<Text>
    decreases set_
  {
    var texts := BodyTexts(x, ignoreCase, set_.body);
    if set_.inverted then Singles(Between(0, MAX_CODE_POINT)) - texts else texts
  }

  ghost function BodyTexts(x: Context, ignoreCase: bool, body: Body): iset<Text>
    decreases body
  {
    match body
    case Union(parts) => UnionTexts(x, ignoreCase, parts)
    case Chain(operator, first, rest) => ChainTexts(x, ignoreCase, operator, OperandTexts(x, ignoreCase, first), rest)
  }

  ghost function UnionTexts(x: Context, ignoreCase: bool, parts: seq<SetPart>): iset<Text>
    decreases parts
  {
    if parts == [] then iset{} else PartTexts(x, ignoreCase, parts[0]) + UnionTexts(x, ignoreCase, parts[1..])
  }

  ghost function PartTexts(x: Context, ignoreCase: bool, part: SetPart): iset<Text>
    decreases part
  {
    match part
    case Member(operand) => OperandTexts(x, ignoreCase, operand)
    case Range(from, to) => Singles(Folded(x, ignoreCase, Between(from.c, to.c)))
  }

  ghost function ChainTexts(x: Context, ignoreCase: bool, operator: char, so: iset<Text>, rest: seq<Operand>): iset<Text>
    decreases rest
  {
    if rest == [] then so
    else
      var next := OperandTexts(x, ignoreCase, rest[0]);
      ChainTexts(x, ignoreCase, operator, if operator == '&' then so * next else so - next, rest[1..])
  }

  // ---- Group names ----

  /** What has been found before a position: the number of captures, the named groups, and the current alternative. */
  datatype Marks = Marks(captures: nat, names: seq<S.Entry>, scope: nat)

  /** A character of a name; pairs of surrogates are one in every mode. */
  predicate NameCharacter(x: Context, p: nat, q: nat, c: nat) {
    if Glyph(x, p) == '\\' then UnicodeEscape(x.(unicode := true), p + 1, q, c)
    else Glyph(x, p) != '>' && ReadCharacter(x.units, p, true) == Some(Reading(c, q))
  }

  predicate IsNamePart(x: Context, c: nat, first: bool) {
    if c < 0x80 then
      c as char in {'$', '_'} || IsAsciiLetter(c as char) || (!first && '0' <= c as char <= '9')
    else if first then x.tables.idStart(c)
    else c == 0x200c || c == 0x200d || x.tables.idContinue(c)
  }

  /** The number of bytes of a character in UTF-8. */
  function Bytes(c: nat): nat {
    if c <= 0x7f then 1 else if c <= 0x7ff then 2 else if c <= 0xffff then 3 else 4
  }

  /** The rest of a name up to and past its closing bracket, after `length` bytes; no character may begin beyond 121. */
  predicate NameLaid(x: Context, spelt: seq<Spelt>, p: nat, q: nat, length: nat) {
    if spelt == [] then Glyph(x, p) == '>' && q == p + 1 && length > 0
    else
      && NameCharacter(x, p, spelt[0].end, spelt[0].c) && IsNamePart(x, spelt[0].c, length == 0) && length <= 121
      && NameLaid(x, spelt[1..], spelt[0].end, q, length + Bytes(spelt[0].c))
  }

  function NameOf(spelt: seq<Spelt>): seq<Unit> {
    if spelt == [] then [] else Utf16(spelt[0].c) + NameOf(spelt[1..])
  }

  /** The captures of a name: all groups of that name so far, or else what the rough scan of the text finds. */
  function CapturesNamed(x: Context, k: Marks, name: seq<Unit>): seq<nat> {
    var parsed := S.Resolve(k.names, name);
    if parsed != [] then parsed else S.Matching(x, name, 0, false, 1)
  }

  /** A reference by name, behind the letter k. */
  predicate NamedReference(x: Context, spelt: seq<Spelt>, p: nat, q: nat, k: Marks) {
    Glyph(x, p) == '<' && NameLaid(x, spelt, p + 1, q, 0) && CapturesNamed(x, k, NameOf(spelt)) != []
  }

  ghost predicate IsNamedReference(x: Context, p: nat, k: Marks) {
    exists spelt, q :: NamedReference(x, spelt, p, q, k)
  }

  // ---- Groups ----

  datatype Head =
    | Capturing(capture: nat)
    | Named(capture: nat, spelt: seq<Spelt>)
    | NonCapturing
    | Look(negative: bool, backward: bool)
    | Modified(modifiers: P.Modifiers, dash: nat)

  /** Letters of modifiers, each at most once. */
  predicate Letters(x: Context, p: nat, q: nat) {
    && p <= q && (forall i :: p <= i < q ==> Glyph(x, i) in {'i', 'm', 's'})
    && forall i, j :: p <= i < j < q ==> Glyph(x, i) != Glyph(x, j)
  }

  predicate Has(x: Context, p: nat, q: nat, letter: char) {
    exists i :: p <= i < q && Glyph(x, i) == letter
  }

  /** A modifier is on where it is added, off where it is removed, and otherwise as before. */
  predicate Switched(x: Context, p: nat, dash: nat, colon: nat, letter: char, before: bool, after: bool) {
    if Has(x, p, dash, letter) then !Has(x, dash + 1, colon, letter) && after
    else if Has(x, dash + 1, colon, letter) then !after
    else after == before
  }

  /** The modifiers between question mark and colon; `dash` is where those that are added end. */
  predicate ModifiersLaid(x: Context, m: P.Modifiers, to: P.Modifiers, p: nat, dash: nat, colon: nat) {
    && Letters(x, p, dash) && Glyph(x, colon) == ':' && p < colon
    && (if Glyph(x, dash) == '-' then Letters(x, dash + 1, colon) && p + 1 < colon else dash == colon)
    && Switched(x, p, dash, colon, 'i', m.ignoreCase, to.ignoreCase)
    && Switched(x, p, dash, colon, 'm', m.multiline, to.multiline)
    && Switched(x, p, dash, colon, 's', m.dotAll, to.dotAll)
  }

  /** The head of a group from behind its opening parenthesis at `p` up to its body at `q`. */
  predicate HeadLaid(x: Context, m: P.Modifiers, head: Head, p: nat, q: nat, k: Marks) {
    match head
    case Capturing(capture) => Glyph(x, p) != '?' && q == p && capture == k.captures < 255
    case Named(capture, spelt) =>
      && Glyph(x, p) == '?' && Glyph(x, p + 1) == '<' && NameLaid(x, spelt, p + 2, q, 0) && capture == k.captures < 255
      && forall i :: 0 <= i < |k.names| ==> k.names[i].scope != k.scope || k.names[i].name != NameOf(spelt)
    case NonCapturing => Glyph(x, p) == '?' && Glyph(x, p + 1) == ':' && q == p + 2
    case Look(negative, backward) =>
      && Glyph(x, p) == '?' && (backward ==> Glyph(x, p + 1) == '<') && q == p + (if backward then 3 else 2)
      && Glyph(x, q - 1) == (if negative then '!' else '=')
    case Modified(modifiers, dash) =>
      Glyph(x, p) == '?' && p < q - 1 && ModifiersLaid(x, m, modifiers, p + 1, dash, q - 1)
  }

  function Inside(m: P.Modifiers, head: Head): P.Modifiers {
    if head.Modified? then head.modifiers else m
  }

  /** What is known inside a group, behind its head. */
  function Entered(head: Head, k: Marks): Marks {
    match head
    case Capturing(_) => k.(captures := k.captures + 1)
    case Named(capture, spelt) =>
      k.(captures := k.captures + 1, names := k.names + [S.Entry(NameOf(spelt), k.scope, k.captures)])
    case _ => k
  }

  // ---- Whole patterns ----

  datatype Layout =
    | LeafAt(atom: P.Atom, end: nat)
    | ReferenceAt(captures: seq<nat>, spelt: seq<Spelt>, end: nat)
    | PropertyAt(class_: P.CharacterClass, texts: iset<Text>, middle: nat, end: nat)
    | ClassAt(class_: P.CharacterClass, parts: seq<ClassPart>, end: nat)
    | SetAt(class_: P.CharacterClass, set_: Set, end: nat)
    | GroupAt(head: Head, start: nat, lines: seq<Line>, end: nat)

  datatype Line = Line(terms: seq<TermAt>, end: nat)

  datatype TermAt = TermAt(layout: Layout, quantifier: Option<P.Quantifier>, comma: nat, end: nat)

  // The tree that is laid out.

  function AtomOf(layout: Layout): P.Atom
    decreases layout
  {
    match layout
    case LeafAt(atom, _) => atom
    case ReferenceAt(captures, _, _) => P.BackReference(captures)
    case PropertyAt(class_, _, _, _) => P.Class(class_)
    case ClassAt(class_, _, _) => P.Class(class_)
    case SetAt(class_, _, _) => P.Class(class_)
    case GroupAt(head, _, lines, _) => Around(head, P.Expression(LinesOf(lines)))
  }

  function Around(head: Head, body: P.Expression): P.Atom {
    match head
    case Look(negative, backward) => P.LookAround(negative, backward, body)
    case Capturing(capture) => P.Group(Some(capture), None, body)
    case Named(capture, _) => P.Group(Some(capture), None, body)
    case NonCapturing => P.Group(None, None, body)
    case Modified(modifiers, _) => P.Group(None, Some(modifiers), body)
  }

  function LinesOf(lines: seq<Line>): seq<P.Sequence>
    decreases lines
  {
    if lines == [] then [] else [P.Sequence(TermsOf(lines[0].terms))] + LinesOf(lines[1..])
  }

  function TermsOf(terms: seq<TermAt>): seq<P.Term>
    decreases terms
  {
    if terms == [] then [] else [TermOf(terms[0])] + TermsOf(terms[1..])
  }

  function TermOf(term: TermAt): P.Term
    decreases term
  {
    P.Term(AtomOf(term.layout), term.quantifier)
  }

  // What has been found behind a part.

  function AfterAtom(layout: Layout, k: Marks): Marks
    decreases layout
  {
    if layout.GroupAt? then AfterLines(layout.lines, Entered(layout.head, k)) else k
  }

  /** The alternatives are counted in eight bits. */
  function AfterLines(lines: seq<Line>, k: Marks): Marks
    decreases lines
  {
    if lines == [] then k
    else if |lines| == 1 then AfterTerms(lines[0].terms, k)
    else AfterLines(lines[1..], NextLine(AfterTerms(lines[0].terms, k)))
  }

  function NextLine(k: Marks): Marks {
    k.(scope := (k.scope + 1) % 256)
  }

  function AfterTerms(terms: seq<TermAt>, k: Marks): Marks
    decreases terms
  {
    if terms == [] then k else AfterTerms(terms[1..], AfterTerm(terms[0], k))
  }

  function AfterTerm(term: TermAt, k: Marks): Marks
    decreases term
  {
    AfterAtom(term.layout, k)
  }

  // Where the parts are.

  ghost predicate LeafLaid(x: Context, m: P.Modifiers, atom: P.Atom, p: nat, q: nat, k: Marks) {
    match atom
    case Literal(c) =>
      || Literal(x, p, q, c)
      || (&& !x.unicode && !x.hasNamed && Glyph(x, p) == '\\' && Glyph(x, p + 1) == 'k' && q == p + 2
          && c == 'k' as int && !IsNamedReference(x, p + 2, k))
    case Dot => Glyph(x, p) == '.' && q == p + 1
    case LineStart => Glyph(x, p) == '^' && q == p + 1
    case LineEnd => Glyph(x, p) == '$' && q == p + 1
    case WordBoundary(inverted) => Glyph(x, p) == '\\' && Glyph(x, p + 1) == (if inverted then 'B' else 'b') && q == p + 2
    case Space(inverted) => Glyph(x, p) == '\\' && Glyph(x, p + 1) == (if inverted then 'S' else 's') && q == p + 2
    case Class(class_) =>
      var letter := Glyph(x, p + 1);
      && Glyph(x, p) == '\\' && letter in {'d', 'D', 'w', 'W'} && q == p + 2 && (class_.inverted <==> IsUpper(letter))
      && Holds(class_, Singles(Folded(x, m.ignoreCase, Kind(letter))))
    case BackReference(captures) =>
      Glyph(x, p) == '\\' && Refers(x, p + 1, q) && captures == [Numeral(x, p + 1, q, 10)]
    case _ => false
  }

  ghost predicate AtomLaid(x: Context, m: P.Modifiers, layout: Layout, p: nat, k: Marks, depth: nat)
    decreases layout
  {
    match layout
    case LeafAt(atom, end) => LeafLaid(x, m, atom, p, end, k)
    case ReferenceAt(captures, spelt, end) =>
      && Glyph(x, p) == '\\' && Glyph(x, p + 1) == 'k' && NamedReference(x, spelt, p + 2, end, k)
      && captures == CapturesNamed(x, k, NameOf(spelt))
    case PropertyAt(class_, texts, middle, end) =>
      && x.unicode && Glyph(x, p) == '\\' && Property(x, m.ignoreCase, p + 1, middle, end, texts)
      && Holds(class_, texts) && !class_.inverted
    case ClassAt(class_, parts, end) => ClassLaid(x, m.ignoreCase, class_, parts, p, end)
    case SetAt(class_, set_, end) =>
      && x.sets && x.unicode && Glyph(x, p) == '[' && SetLaid(x, m.ignoreCase, set_, p + 1, depth) && end == set_.end
      && Holds(class_, SetTexts(x, m.ignoreCase, set_)) && !class_.inverted
    case GroupAt(head, start, lines, end) =>
      && depth < 256 && Glyph(x, p) == '(' && HeadLaid(x, m, head, p + 1, start, k)
      && LinesLaid(x, Inside(m, head), lines, start, Entered(head, k), true, depth + 1)
      && Glyph(x, EndOfLines(lines)) == ')' && end == EndOfLines(lines) + 1
  }

  function EndOfLines(lines: seq<Line>): nat {
    if lines == [] then 0 else lines[|lines| - 1].end
  }

  ghost predicate LinesLaid(x: Context, m: P.Modifiers, lines: seq<Line>, p: nat, k: Marks, inGroup: bool, depth: nat)
    decreases lines
  {
    && lines != [] && TermsLaid(x, m, lines[0].terms, p, lines[0].end, k, depth)
    && if |lines| == 1 then lines[0].end == |x.units| || (inGroup && Glyph(x, lines[0].end) == ')')
       else
         && Glyph(x, lines[0].end) == '|'
         && LinesLaid(x, m, lines[1..], lines[0].end + 1, NextLine(AfterTerms(lines[0].terms, k)), inGroup, depth)
  }

  ghost predicate TermsLaid(x: Context, m: P.Modifiers, terms: seq<TermAt>, p: nat, q: nat, k: Marks, depth: nat)
    decreases terms
  {
    if terms == [] then p == q
    else
      && TermLaid(x, m, terms[0], p, k, depth)
      && TermsLaid(x, m, terms[1..], terms[0].end, q, AfterTerm(terms[0], k), depth)
  }

  ghost predicate TermLaid(x: Context, m: P.Modifiers, term: TermAt, p: nat, k: Marks, depth: nat)
    decreases term
  {
    && AtomLaid(x, m, term.layout, p, k, depth)
    && match term.quantifier {
      case None => term.end == term.layout.end && NoQuantifier(x, term.end)
      case Some(quantifier) =>
        Repeats(x, term.layout) && Quantifier(x, term.layout.end, term.comma, term.end, quantifier)
    }
  }

  /** Assertions take no quantifier, but for lookaheads in legacy patterns. */
  predicate Repeats(x: Context, layout: Layout) {
    match layout
    case LeafAt(atom, _) => !atom.LineStart? && !atom.LineEnd? && !atom.WordBoundary?
    case GroupAt(head, _, _, _) => MayRepeat(x, head)
    case _ => true
  }

  predicate MayRepeat(x: Context, head: Head) {
    head.Look? ==> !x.unicode && !head.backward
  }

  /** The text is laid out as the lines say. */
  ghost predicate PatternLaid(x: Context, m: P.Modifiers, lines: seq<Line>) {
    LinesLaid(x, m, lines, 0, Marks(1, [], 0), false, 0)
  }
}
