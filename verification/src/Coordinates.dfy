/** Lines and columns of byte offsets: a linear scan, an index of checkpoints, and a caching cursor. */
module Coordinates {
  import opened Basics

  const CHECKPOINT := 256

  datatype LineColumn = LineColumn(line: nat, column: nat)

  datatype CoordinateError = OffsetOutOfBounds | OffsetNotUtf8Boundary | LineOrColumnOverflow

  const ORIGIN := LineColumn(0, 0)

  predicate IsNewline(b: Byte) {
    b == 10
  }

  // ---- The linear scan ----

  function AdvanceOne(position: LineColumn, b: Byte): Result<LineColumn, CoordinateError> {
    if IsNewline(b) then
      if position.line >= U32_MAX then Err(LineOrColumnOverflow) else Ok(LineColumn(position.line + 1, 0))
    else if !IsContinuation(b) then
      if position.column >= U32_MAX then Err(LineOrColumnOverflow) else Ok(position.(column := position.column + 1))
    else Ok(position)
  }

  function Advance(position: LineColumn, bytes: seq<Byte>): Result<LineColumn, CoordinateError>
    decreases |bytes|
  {
    if bytes == [] then Ok(position)
    else
      var next := AdvanceOne(position, bytes[0]);
      if next.Err? then next else Advance(next.value, bytes[1..])
  }

  function Then(r: Result<LineColumn, CoordinateError>, bytes: seq<Byte>): Result<LineColumn, CoordinateError> {
    if r.Err? then r else Advance(r.value, bytes)
  }

  lemma {:induction false} AdvanceJoins(position: LineColumn, first: seq<Byte>, rest: seq<Byte>)
    ensures Advance(position, first + rest) == Then(Advance(position, first), rest)
    decreases |first|
  {
    if first == [] {
      assert first + rest == rest;
    } else {
      assert (first + rest)[1..] == first[1..] + rest;
      var next := AdvanceOne(position, first[0]);
      if next.Ok? {
        AdvanceJoins(next.value, first[1..], rest);
      }
    }
  }

  method AdvancePosition(position: LineColumn, bytes: seq<Byte>) returns (r: Result<LineColumn, CoordinateError>)
    ensures r == Advance(position, bytes)
  {
    var current := position;
    assert bytes[0..] == bytes;
    for i := 0 to |bytes|
      invariant Advance(current, bytes[i..]) == Advance(position, bytes)
    {
      assert bytes[i..][1..] == bytes[i + 1..];
      if IsNewline(bytes[i]) {
        if current.line >= U32_MAX {
          return Err(LineOrColumnOverflow);
        }
        current := LineColumn(current.line + 1, 0);
      } else if !IsContinuation(bytes[i]) {
        if current.column >= U32_MAX {
          return Err(LineOrColumnOverflow);
        }
        current := current.(column := current.column + 1);
      }
    }
    return Ok(current);
  }

  // ---- What a position means ----

  /** Newlines before the end of the bytes. */
  function Lines(bytes: seq<Byte>): nat {
    if bytes == [] then 0
    else Lines(bytes[..|bytes| - 1]) + if bytes[|bytes| - 1] == 10 then 1 else 0
  }

  /** Characters after the last newline: the bytes that do not look like continuations. */
  function Columns(bytes: seq<Byte>): nat {
    if bytes == [] || bytes[|bytes| - 1] == 10 then 0
    else Columns(bytes[..|bytes| - 1]) + if 0x80 <= bytes[|bytes| - 1] <= 0xbf then 0 else 1
  }

  predicate Countable(bytes: seq<Byte>) {
    forall i :: 0 <= i <= |bytes| ==> Lines(bytes[..i]) <= U32_MAX && Columns(bytes[..i]) <= U32_MAX
  }

  /** The scan counts lines and columns, and fails exactly when one of them leaves 32 bits on the way. */
  lemma {:induction false} AdvanceCounts(bytes: seq<Byte>)
    ensures Advance(ORIGIN, bytes)
         == if Countable(bytes) then Ok(LineColumn(Lines(bytes), Columns(bytes))) else Err(LineOrColumnOverflow)
    decreases |bytes|
  {
    if bytes == [] {
      assert forall i :: 0 <= i <= |bytes| ==> bytes[..i] == [];
    } else {
      var front, last := bytes[..|bytes| - 1], bytes[|bytes| - 1];
      assert bytes == front + [last];
      AdvanceCounts(front);
      AdvanceJoins(ORIGIN, front, [last]);
      assert [last][1..] == [] && front[..|front|] == front;
      CountableLast(bytes);
      if Countable(front) {
        var position := LineColumn(Lines(front), Columns(front));
        assert Advance(position, [last]) == AdvanceOne(position, last) by {
          assert AdvanceOne(position, last).Ok? ==> Advance(AdvanceOne(position, last).value, []) == AdvanceOne(position, last);
        }
      }
    }
  }

  lemma CountableLast(bytes: seq<Byte>)
    requires bytes != []
    ensures Countable(bytes) <==> Countable(bytes[..|bytes| - 1]) && Lines(bytes) <= U32_MAX && Columns(bytes) <= U32_MAX
  {
    hide Lines;
    hide Columns;
    var front := bytes[..|bytes| - 1];
    assert forall i :: 0 <= i <= |front| ==> front[..i] == bytes[..i];
    assert bytes[..|bytes|] == bytes;
    if Countable(bytes) {
      assert forall i :: 0 <= i <= |front| ==> Lines(front[..i]) == Lines(bytes[..i]) && Columns(front[..i]) == Columns(bytes[..i]);
    }
    if Countable(front) && Lines(bytes) <= U32_MAX && Columns(bytes) <= U32_MAX {
      forall i | 0 <= i <= |bytes|
        ensures Lines(bytes[..i]) <= U32_MAX && Columns(bytes[..i]) <= U32_MAX
      {
        if i < |bytes| {
          assert front[..i] == bytes[..i];
        }
      }
    }
  }

  // ---- Lookups ----

  /** A source: its bytes, and whether they are known to be UTF-8. */
  datatype Source = Source(bytes: seq<Byte>, utf8: bool)

  predicate IsBoundary(bytes: seq<Byte>, offset: nat) {
    offset == 0 || offset == |bytes| || (offset < |bytes| && !IsContinuation(bytes[offset]))
  }

  function Validate(source: Source, offset: nat): Option<CoordinateError> {
    if offset > |source.bytes| then Some(OffsetOutOfBounds)
    else if source.utf8 && !IsBoundary(source.bytes, offset) then Some(OffsetNotUtf8Boundary)
    else None
  }

  /** The locator: a scan from the beginning. */
  function Locate(source: Source, offset: nat): Result<LineColumn, CoordinateError> {
    var refused := Validate(source, offset);
    if refused.Some? then Err(refused.value) else Advance(ORIGIN, source.bytes[..offset])
  }

  /** In the middle of a character: the byte at the offset continues the one before. */
  predicate Splits(bytes: seq<Byte>, offset: nat) {
    0 < offset < |bytes| && 0x80 <= bytes[offset] <= 0xbf
  }

  /**
   Which offsets are refused, and what the others are answered: the end of the source is an offset like any
   other, and only a source that is known to be UTF-8 has offsets inside characters.
   */
  lemma LocateExactly(source: Source, offset: nat)
    ensures var r := Locate(source, offset);
            && (r == Err(OffsetOutOfBounds) <==> offset > |source.bytes|)
            && (r == Err(OffsetNotUtf8Boundary) <==> source.utf8 && Splits(source.bytes, offset))
            && (offset <= |source.bytes| && !(source.utf8 && Splits(source.bytes, offset)) ==>
                  var before := source.bytes[..offset];
                  r == if Countable(before) then Ok(LineColumn(Lines(before), Columns(before))) else Err(LineOrColumnOverflow))
  {
    hide Advance;
    hide Countable;
    if offset <= |source.bytes| {
      AdvanceCounts(source.bytes[..offset]);
    }
  }

  /** An index holds the position at every multiple of the checkpoint distance. */
  predicate Indexes(source: Source, checkpoints: seq<LineColumn>) {
    && |checkpoints| == |source.bytes| / CHECKPOINT + 1
    && forall k :: 0 <= k < |checkpoints| ==> Advance(ORIGIN, source.bytes[..k * CHECKPOINT]) == Ok(checkpoints[k])
  }

  method BuildIndex(source: Source) returns (r: Result<seq<LineColumn>, CoordinateError>)
    ensures r.Ok? ==> Indexes(source, r.value)
    ensures r.Err? ==> r.error == LineOrColumnOverflow && Advance(ORIGIN, source.bytes) == Err(LineOrColumnOverflow)
  {
    hide Advance;
    var checkpoints, position := [ORIGIN], ORIGIN;
    var chunks := |source.bytes| / CHECKPOINT;
    assert Advance(ORIGIN, source.bytes[..0]) == Ok(ORIGIN) by { Nowhere(source.bytes); }
    for k := 0 to chunks
      invariant |checkpoints| == k + 1 && position == checkpoints[k]
      invariant forall j :: 0 <= j <= k ==> Advance(ORIGIN, source.bytes[..j * CHECKPOINT]) == Ok(checkpoints[j])
    {
      var from, to := k * CHECKPOINT, (k + 1) * CHECKPOINT;
      AdvanceJoins(ORIGIN, source.bytes[..from], source.bytes[from..to]);
      assert source.bytes[..from] + source.bytes[from..to] == source.bytes[..to];
      var next := AdvancePosition(position, source.bytes[from..to]);
      if next.Err? {
        AdvanceJoins(ORIGIN, source.bytes[..to], source.bytes[to..]);
        assert source.bytes[..to] + source.bytes[to..] == source.bytes;
        OnlyOverflow(ORIGIN, source.bytes);
        return Err(next.error);
      }
      position := next.value;
      checkpoints := checkpoints + [position];
    }
    return Ok(checkpoints);
  }

  lemma Nowhere(bytes: seq<Byte>)
    ensures Advance(ORIGIN, bytes[..0]) == Ok(ORIGIN)
  {
  }

  lemma {:induction false} OnlyOverflow(position: LineColumn, bytes: seq<Byte>)
    ensures Advance(position, bytes).Err? ==> Advance(position, bytes).error == LineOrColumnOverflow
    decreases |bytes|
  {
    if bytes != [] {
      var next := AdvanceOne(position, bytes[0]);
      if next.Ok? {
        OnlyOverflow(next.value, bytes[1..]);
      }
    }
  }

  /** A lookup through the index scans only from the checkpoint before the offset. */
  function LocateIndexed(source: Source, checkpoints: seq<LineColumn>, offset: nat): Result<LineColumn, CoordinateError>
    requires Indexes(source, checkpoints)
  {
    var refused := Validate(source, offset);
    if refused.Some? then Err(refused.value)
    else
      var k := offset / CHECKPOINT;
      Advance(checkpoints[k], source.bytes[k * CHECKPOINT..offset])
  }

  lemma IndexAgrees(source: Source, checkpoints: seq<LineColumn>, offset: nat)
    requires Indexes(source, checkpoints)
    ensures LocateIndexed(source, checkpoints, offset) == Locate(source, offset)
  {
    hide Advance;
    if offset <= |source.bytes| {
      var k := offset / CHECKPOINT;
      Resumes(source.bytes, k * CHECKPOINT, offset, checkpoints[k]);
    }
  }

  /** A scan may resume from any position already reached. */
  lemma Resumes(bytes: seq<Byte>, from: nat, to: nat, position: LineColumn)
    requires from <= to <= |bytes| && Advance(ORIGIN, bytes[..from]) == Ok(position)
    ensures Advance(position, bytes[from..to]) == Advance(ORIGIN, bytes[..to])
  {
    hide Advance;
    AdvanceJoins(ORIGIN, bytes[..from], bytes[from..to]);
    assert bytes[..from] + bytes[from..to] == bytes[..to];
  }

  // ---- The cursor ----

  type Cached = Option<(nat, LineColumn)>

  /** What is cached is right. */
  predicate Right(source: Source, cached: Cached) {
    cached.Some? ==> cached.value.0 <= |source.bytes| && Locate(source, cached.value.0) == Ok(cached.value.1)
  }

  predicate Reuses(cached: Cached, offset: nat) {
    cached.Some? && cached.value.0 <= offset && cached.value.0 / CHECKPOINT == offset / CHECKPOINT
  }

  function Query(source: Source, checkpoints: seq<LineColumn>, cached: Cached, offset: nat)
    : (Result<LineColumn, CoordinateError>, Cached)
    requires Indexes(source, checkpoints)
  {
    var refused := Validate(source, offset);
    if refused.Some? then (Err(refused.value), cached)
    else
      var r := if Reuses(cached, offset) then Advance(cached.value.1, source.bytes[cached.value.0..offset])
               else LocateIndexed(source, checkpoints, offset);
      (r, if r.Ok? then Some((offset, r.value)) else cached)
  }

  lemma QueryAgrees(source: Source, checkpoints: seq<LineColumn>, cached: Cached, offset: nat)
    requires Indexes(source, checkpoints) && Right(source, cached)
    ensures var (r, cached') := Query(source, checkpoints, cached, offset);
            && r == Locate(source, offset) && Right(source, cached') && (r.Err? ==> cached' == cached)
  {
    hide Advance;
    IndexAgrees(source, checkpoints, offset);
    if Validate(source, offset).None? && Reuses(cached, offset) {
      Resumes(source.bytes, cached.value.0, offset, cached.value.1);
    }
  }

  function Answers(source: Source, checkpoints: seq<LineColumn>, cached: Cached, offsets: seq<nat>)
    : seq<Result<LineColumn, CoordinateError>>
    requires Indexes(source, checkpoints)
    decreases |offsets|
  {
    if offsets == [] then []
    else
      var (r, cached') := Query(source, checkpoints, cached, offsets[0]);
      [r] + Answers(source, checkpoints, cached', offsets[1..])
  }

  /** Whatever was asked before, cursor, index and linear scan agree on every query. */
  lemma {:induction false} HistoryAgrees(source: Source, checkpoints: seq<LineColumn>, cached: Cached, offsets: seq<nat>)
    requires Indexes(source, checkpoints) && Right(source, cached)
    ensures var answers := Answers(source, checkpoints, cached, offsets);
            && |answers| == |offsets|
            && forall i :: 0 <= i < |offsets| ==>
                 answers[i] == Locate(source, offsets[i]) == LocateIndexed(source, checkpoints, offsets[i])
    decreases |offsets|
  {
    hide Locate;
    hide LocateIndexed;
    hide Query;
    if offsets != [] {
      var (r, cached') := Query(source, checkpoints, cached, offsets[0]);
      QueryAgrees(source, checkpoints, cached, offsets[0]);
      IndexAgrees(source, checkpoints, offsets[0]);
      HistoryAgrees(source, checkpoints, cached', offsets[1..]);
    }
  }

  class SourceCursor {
    const source: Source
    const checkpoints: seq<LineColumn>
    var previous: Cached

    ghost predicate Valid()
      reads this
    {
      Indexes(source, checkpoints) && Right(source, previous)
    }

    constructor (source: Source, checkpoints: seq<LineColumn>)
      requires Indexes(source, checkpoints)
      ensures Valid() && previous == None && this.source == source
    {
      this.source := source;
      this.checkpoints := checkpoints;
      previous := None;
    }

    method LocateByteOffset(offset: nat) returns (r: Result<LineColumn, CoordinateError>)
      requires Valid()
      modifies this`previous
      ensures Valid() && r == Locate(source, offset)
      ensures previous == if r.Ok? then Some((offset, r.value)) else old(previous)
    {
      hide Advance;
      QueryAgrees(source, checkpoints, previous, offset);
      var refused := Validate(source, offset);
      if refused.Some? {
        return Err(refused.value);
      }
      if Reuses(previous, offset) {
        r := AdvancePosition(previous.value.1, source.bytes[previous.value.0..offset]);
      } else {
        var k := offset / CHECKPOINT;
        r := AdvancePosition(checkpoints[k], source.bytes[k * CHECKPOINT..offset]);
      }
      if r.Ok? {
        previous := Some((offset, r.value));
      }
    }
  }
}
