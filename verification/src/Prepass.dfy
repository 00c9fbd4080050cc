/** The lexical prepass that counts capture groups before the pattern is parsed. */
module Prepass {
  import opened Characters

  const CAPTURE_COUNT_MAX := 255

  /** The number of captures, capture zero included, and whether one of them is named. */
  datatype Summary = Summary(captures: nat, named: bool)

  /** The unit at a position, or a value that no unit has. */
  function Peek(units: seq<Unit>, p: nat): int {
    if p < |units| then units[p] else -1
  }

  const OPEN := 0x28
  const CLOSE := 0x29
  const BACKSLASH := 0x5c
  const OPEN_CLASS := 0x5b
  const CLOSE_CLASS := 0x5d
  const QUESTION := 0x3f
  const LESS := 0x3c

  predicate PlainGroup(units: seq<Unit>, p: nat) {
    Peek(units, p + 1) != QUESTION
  }

  predicate NamedGroup(units: seq<Unit>, p: nat) {
    && Peek(units, p + 1) == QUESTION && Peek(units, p + 2) == LESS
    && Peek(units, p + 3) != 0x3d && Peek(units, p + 3) != 0x21
  }

  /** The scan from a position, inside a class or outside, with what has been counted so far. */
  function Scan(units: seq<Unit>, p: nat, inside: bool, so: Summary): Summary
    decreases |units| - p
  {
    if p >= |units| || so.captures >= CAPTURE_COUNT_MAX then so
    else if units[p] == BACKSLASH then Scan(units, p + 2, inside, so)
    else if inside then Scan(units, p + 1, units[p] != CLOSE_CLASS, so)
    else if units[p] == OPEN then
      Scan(units, p + 1, false,
           if PlainGroup(units, p) then so.(captures := so.captures + 1)
           else if NamedGroup(units, p) then Summary(so.captures + 1, true)
           else so)
    else Scan(units, p + 1, units[p] == OPEN_CLASS, so)
  }

  method CaptureSummary(units: seq<Unit>) returns (summary: Summary)
    ensures summary == Scan(units, 0, false, Summary(1, false))
  {
    var captures, named, p := 1, false, 0;
    while p < |units|
      invariant captures < CAPTURE_COUNT_MAX
      invariant Scan(units, p, false, Summary(captures, named)) == Scan(units, 0, false, Summary(1, false))
      decreases |units| - p
    {
      if units[p] == OPEN {
        var isPlain, isNamed := PlainGroup(units, p), NamedGroup(units, p);
        if isNamed {
          named := true;
        }
        if isPlain || isNamed {
          captures := captures + 1;
          if captures >= CAPTURE_COUNT_MAX {
            return Summary(captures, named);
          }
        }
      } else if units[p] == BACKSLASH {
        p := p + 1;
      } else if units[p] == OPEN_CLASS {
        p := p + 1;
        while p < |units| && units[p] != CLOSE_CLASS
          invariant Scan(units, p, true, Summary(captures, named)) == Scan(units, 0, false, Summary(1, false))
          decreases |units| - p
        {
          if units[p] == BACKSLASH {
            p := p + 1;
          }
          p := p + 1;
        }
      }
      p := p + 1;
    }
    return Summary(captures, named);
  }
}
