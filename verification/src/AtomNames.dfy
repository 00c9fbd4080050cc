/**
 * Atom handles and the spelling of integer property names: a canonical decimal
 * spelling and its number determine each other.
 */
module AtomNames {
  import opened Basics
  import opened Characters

  const ATOM_TAG_INT := 0x8000_0000
  const ATOM_MAX_INT := 0x7fff_ffff
  const ATOM_MAX_TABLE_INDEX := 0x3fff_ffff

  /** A handle: a raw 32-bit encoding, branded with a slot generation and a table identity. */
  datatype Atom = Atom(raw: nat, generation: nat, table: nat)

  predicate IsImmediate(raw: nat) {
    raw >= ATOM_TAG_INT
  }

  /** Null and immediate integers carry no brand and no table entry. */
  predicate Unstored(raw: nat) {
    raw == 0 || IsImmediate(raw)
  }

  function FromImmediate(value: nat): Option<Atom> {
    if value <= ATOM_MAX_INT then Some(Atom(ATOM_TAG_INT + value, 0, 0)) else None
  }

  // ---- Decimal spellings ----

  const ZERO: nat := 48

  predicate IsDigit(unit: Unit) {
    ZERO <= unit <= ZERO + 9
  }

  function Decimal(value: nat): (r: seq<Unit>)
    ensures r != []
  {
    if value < 10 then [ZERO + value] else Decimal(value / 10) + [ZERO + value % 10]
  }

  predicate Digits(units: seq<Unit>) {
    forall i :: 0 <= i < |units| ==> IsDigit(units[i])
  }

  function Value(units: seq<Unit>): nat
    requires Digits(units)
  {
    if units == [] then 0
    else
      var last := units[|units| - 1];
      assert IsDigit(last);
      10 * Value(units[..|units| - 1]) + (last - ZERO)
  }

  predicate Canonical(units: seq<Unit>) {
    units != [] && Digits(units) && (|units| > 1 ==> units[0] != ZERO)
  }

  lemma {:induction false} DecimalIsCanonical(value: nat)
    ensures Canonical(Decimal(value)) && Value(Decimal(value)) == value
    ensures value > 0 ==> Decimal(value)[0] != ZERO
    decreases value
  {
    if value < 10 {
      assert [ZERO + value][..0] == [];
    } else {
      DecimalIsCanonical(value / 10);
      assert Decimal(value)[..|Decimal(value)| - 1] == Decimal(value / 10);
    }
  }

  lemma {:induction false} CanonicalIsDecimal(units: seq<Unit>)
    requires Canonical(units)
    ensures Decimal(Value(units)) == units
    ensures units[0] != ZERO ==> Value(units) > 0
    decreases |units|
  {
    var front, last := units[..|units| - 1], units[|units| - 1];
    assert IsDigit(last) && units == front + [last];
    if front != [] {
      assert IsDigit(front[0]);
      CanonicalIsDecimal(front);
      assert Value(units) / 10 == Value(front) && Value(units) % 10 == last - ZERO;
    }
  }

  lemma {:induction false} PrefixIsSmaller(units: seq<Unit>, i: nat)
    requires Digits(units) && i <= |units|
    ensures Value(units[..i]) <= Value(units)
    decreases |units|
  {
    if i == |units| {
      assert units[..i] == units;
    } else {
      var front := units[..|units| - 1];
      PrefixIsSmaller(front, i);
      assert front[..i] == units[..i];
    }
  }

  /** Dropping one digit divides by ten. */
  lemma {:induction false} DecimalLength(value: nat, digits: nat, limit: nat)
    requires digits > 0 && value < limit && limit == Power(digits)
    ensures |Decimal(value)| <= digits
    decreases digits
  {
    if value >= 10 {
      assert limit == 10 * Power(digits - 1);
      DecimalLength(value / 10, digits - 1, Power(digits - 1));
    }
  }

  function Power(digits: nat): nat {
    if digits == 0 then 1 else 10 * Power(digits - 1)
  }

  lemma TenDigits(value: nat)
    requires value <= U32_MAX
    ensures |Decimal(value)| <= 10
  {
    assert Power(5) == 100_000;
    assert Power(10) == 10_000_000_000;
    DecimalLength(value, 10, 10_000_000_000);
  }

  /** The number that a spelling names, if it is the decimal spelling of a 32-bit number. */
  function Parsed(units: seq<Unit>): (r: Option<nat>)
    ensures r.Some? ==> r.value <= U32_MAX
  {
    if Canonical(units) && Value(units) <= U32_MAX then Some(Value(units)) else None
  }

  /** Spelling and number determine each other. */
  lemma ParsedIffDecimal(units: seq<Unit>, value: nat)
    requires value <= U32_MAX
    ensures Parsed(units) == Some(value) <==> units == Decimal(value)
  {
    DecimalIsCanonical(value);
    if Canonical(units) {
      CanonicalIsDecimal(units);
    }
  }

  /** The accumulating loop that recognises canonical 32-bit spellings, with its overflow checks. */
  method ParseCanonicalU32(units: seq<Unit>) returns (r: Option<nat>)
    ensures r == Parsed(units)
  {
    if units == [] || |units| > 10 {
      if Canonical(units) && Value(units) <= U32_MAX {
        CanonicalIsDecimal(units);
        TenDigits(Value(units));
        assert false;
      }
      return None;
    }
    if units[0] == ZERO {
      assert [ZERO][..0] == [] && units == [ZERO] + units[1..];
      return if |units| == 1 then Some(0) else None;
    }
    if !(ZERO + 1 <= units[0] <= ZERO + 9) {
      assert !IsDigit(units[0]);
      return None;
    }
    var value := units[0] - ZERO;
    assert units[..1][..0] == [];
    for i := 1 to |units|
      invariant Digits(units[..i]) && value == Value(units[..i]) <= U32_MAX
    {
      if !IsDigit(units[i]) {
        return None;
      }
      assert units[..i + 1][..i] == units[..i];
      if value * 10 > U32_MAX || value * 10 + (units[i] - ZERO) > U32_MAX {
        if Digits(units) {
          PrefixIsSmaller(units, i + 1);
        }
        return None;
      }
      value := value * 10 + (units[i] - ZERO);
    }
    assert units[..|units|] == units;
    return Some(value);
  }

  /** Property names that are stored in the handle itself. */
  function ImmediateAtom(units: seq<Unit>): (r: Option<Atom>)
    ensures r.Some? ==> IsImmediate(r.value.raw)
  {
    var parsed := Parsed(units);
    if parsed.Some? then FromImmediate(parsed.value) else None
  }

  /** Array indices are the 32-bit numbers but the largest. */
  function CanonicalArrayIndex(units: seq<Unit>): Option<nat> {
    var parsed := Parsed(units);
    if parsed == Some(U32_MAX) then None else parsed
  }
}
