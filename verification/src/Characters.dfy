/**
 Reading characters out of a sequence of UTF-16 code units, forward and
 backward, the way the executor does it: in Unicode mode a high surrogate
 followed by a low surrogate is one character.
 */
module Characters {
  import opened Basics

  type Unit = u: int | 0 <= u < 0x1_0000

  /** One character and the position on its far side. */
  datatype Reading = Reading(character: nat, next: nat)

  predicate IsHighSurrogate(unit: int) {
    0xd800 <= unit <= 0xdbff
  }

  predicate IsLowSurrogate(unit: int) {
    0xdc00 <= unit <= 0xdfff
  }

  function Combine(high: int, low: int): nat
    requires IsHighSurrogate(high) && IsLowSurrogate(low)
  {
    0x1_0000 + (high - 0xd800) * 0x400 + (low - 0xdc00)
  }

  /** The units of a code point; a surrogate stands for itself. */
  function Utf16(c: nat): (r: seq<Unit>)
    requires c <= MAX_CODE_POINT
    ensures 1 <= |r| <= 2
    ensures IsHighSurrogate(r[|r| - 1]) <==> IsHighSurrogate(c)
    ensures IsLowSurrogate(r[0]) <==> IsLowSurrogate(c)
  {
    if c < 0x1_0000 then [c] else [0xd800 + (c - 0x1_0000) / 0x400, 0xdc00 + (c - 0x1_0000) % 0x400]
  }

  predicate IsLineTerminator(character: nat) {
    character == 0x000a || character == 0x000d || character == 0x2028 || character == 0x2029
  }

  predicate IsSpace(character: nat) {
    || 0x0009 <= character <= 0x000d
    || character == 0x0020
    || character == 0x00a0
    || character == 0x1680
    || 0x2000 <= character <= 0x200a
    || character == 0x2028
    || character == 0x2029
    || character == 0x202f
    || character == 0x205f
    || character == 0x3000
    || character == 0xfeff
  }

  predicate IsWord(character: nat, ignoreCase: bool) {
    || character == 0x5f
    || 0x30 <= character <= 0x39
    || 0x41 <= character <= 0x5a
    || 0x61 <= character <= 0x7a
    || (ignoreCase && (character == 0x017f || character == 0x212a))
  }

  function ReadCharacter(input: seq<Unit>, position: nat, unicode: bool): Option<Reading> {
    if position >= |input| then None
    else if unicode && IsHighSurrogate(input[position]) && position + 1 < |input|
            && IsLowSurrogate(input[position + 1]) then
      Some(Reading(Combine(input[position], input[position + 1]), position + 2))
    else
      Some(Reading(input[position], position + 1))
  }

  /** Read the character that ends at `position`, never looking below `lowerBound`. */
  function ReadPreviousBounded(input: seq<Unit>, position: nat, lowerBound: nat, unicode: bool): Option<Reading> {
    if position <= lowerBound || position > |input| then None
    else if unicode && IsLowSurrogate(input[position - 1]) && position >= lowerBound + 2
            && IsHighSurrogate(input[position - 2]) then
      Some(Reading(Combine(input[position - 2], input[position - 1]), position - 2))
    else
      Some(Reading(input[position - 1], position - 1))
  }

  function ReadPrevious(input: seq<Unit>, position: nat, unicode: bool): Option<Reading> {
    ReadPreviousBounded(input, position, 0, unicode)
  }

  function NormalizeStart(input: seq<Unit>, start: nat, unicode: bool): nat {
    if unicode && 0 < start < |input| && IsLowSurrogate(input[start]) && IsHighSurrogate(input[start - 1])
    then start - 1
    else start
  }

  /** The executor's AdvanceStringIndex. */
  function AdvanceStringIndex(input: seq<Unit>, position: nat, unicode: bool): nat {
    match ReadCharacter(input, position, unicode)
    case Some(reading) => reading.next
    case None => |input|
  }

  /** In Unicode mode, `position` does not fall between the halves of a surrogate pair. */
  predicate Boundary(input: seq<Unit>, position: nat, unicode: bool) {
    && position <= |input|
    && !(unicode && 0 < position < |input| && IsHighSurrogate(input[position - 1]) && IsLowSurrogate(input[position]))
  }

  // ---- Forward and backward reads are mutually inverse at boundaries ----

  lemma ForwardThenBackward(input: seq<Unit>, position: nat, unicode: bool)
    requires Boundary(input, position, unicode)
    ensures var r := ReadCharacter(input, position, unicode);
            r.Some? <==> position < |input|
    ensures var r := ReadCharacter(input, position, unicode);
            r.Some? ==>
              && position < r.value.next
              && Boundary(input, r.value.next, unicode)
              && ReadPrevious(input, r.value.next, unicode) == Some(Reading(r.value.character, position))
  {
  }

  lemma BackwardThenForward(input: seq<Unit>, position: nat, unicode: bool)
    requires Boundary(input, position, unicode)
    ensures var r := ReadPrevious(input, position, unicode);
            r.Some? <==> 0 < position
    ensures var r := ReadPrevious(input, position, unicode);
            r.Some? ==>
              && r.value.next < position
              && Boundary(input, r.value.next, unicode)
              && ReadCharacter(input, r.value.next, unicode) == Some(Reading(r.value.character, position))
  {
  }

  /** The normalised start is the greatest boundary not beyond the requested start. */
  lemma NormalizedStartIsBoundary(input: seq<Unit>, start: nat, unicode: bool)
    requires start <= |input|
    ensures var p := NormalizeStart(input, start, unicode);
            && p <= start
            && Boundary(input, p, unicode)
            && forall q :: p < q <= start ==> !Boundary(input, q, unicode)
  {
  }

  /** Advancing reaches the next boundary and skips none. */
  lemma AdvanceReachesNextBoundary(input: seq<Unit>, position: nat, unicode: bool)
    requires position < |input| && Boundary(input, position, unicode)
    ensures var p := AdvanceStringIndex(input, position, unicode);
            && position < p
            && Boundary(input, p, unicode)
            && forall q :: position < q < p ==> !Boundary(input, q, unicode)
  {
  }
}
