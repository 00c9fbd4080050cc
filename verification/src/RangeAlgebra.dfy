/**
 * The set algebra on character ranges: each operation denotes the set operation of
 * its name and leaves sorted, disjoint, non-adjacent ranges.
 */
module RangeAlgebra {
  import opened Basics
  import opened CharacterRanges

  /** The parser's ranges are non-empty and hold code points only. */
  predicate CodePoints(ranges: seq<CharacterRange>) {
    forall i :: 0 <= i < |ranges| ==> ranges[i].start <= ranges[i].end <= MAX_CODE_POINT
  }

  function SaturatingNext(value: nat): nat {
    if value >= U32_MAX then U32_MAX else value + 1
  }

  predicate Covers(range: CharacterRange, character: nat) {
    range.start <= character <= range.end
  }

  lemma MemberLast(ranges: seq<CharacterRange>, last: CharacterRange, character: nat)
    ensures Member(ranges + [last], character) <==> Member(ranges, character) || Covers(last, character)
  {
    if Member(ranges, character) {
      var i :| 0 <= i < |ranges| && ranges[i].start <= character <= ranges[i].end;
      assert (ranges + [last])[i] == ranges[i];
    }
    if Covers(last, character) {
      assert (ranges + [last])[|ranges|] == last;
    }
  }

  lemma MemberFirst(ranges: seq<CharacterRange>, character: nat)
    requires ranges != []
    ensures Member(ranges, character) <==> Covers(ranges[0], character) || Member(ranges[1..], character)
  {
    if Member(ranges[1..], character) {
      var i :| 0 <= i < |ranges[1..]| && ranges[1..][i].start <= character <= ranges[1..][i].end;
      assert ranges[1..][i] == ranges[i + 1];
    }
    if Member(ranges, character) && !Covers(ranges[0], character) {
      var i :| 0 <= i < |ranges| && ranges[i].start <= character <= ranges[i].end;
      assert ranges[1..][i - 1] == ranges[i];
    }
  }

  /** The characters of a prefix, one more range at a time. */
  lemma MemberNext(ranges: seq<CharacterRange>, i: nat, character: nat)
    requires i < |ranges|
    ensures Member(ranges[..i + 1], character) <==> Member(ranges[..i], character) || Covers(ranges[i], character)
  {
    assert ranges[..i + 1] == ranges[..i] + [ranges[i]];
    MemberLast(ranges[..i], ranges[i], character);
  }

  // ---- Sorting ----

  predicate Before(a: CharacterRange, b: CharacterRange) {
    a.start < b.start || (a.start == b.start && a.end <= b.end)
  }

  predicate Sorted(ranges: seq<CharacterRange>) {
    forall i, j :: 0 <= i < j < |ranges| ==> Before(ranges[i], ranges[j])
  }

  function Insert(range: CharacterRange, sorted: seq<CharacterRange>): (r: seq<CharacterRange>)
    requires Sorted(sorted)
    ensures Sorted(r) && multiset(r) == multiset{range} + multiset(sorted)
    ensures forall x :: x in r <==> x == range || x in sorted
  {
    if sorted == [] || Before(range, sorted[0]) then
      assert forall x :: x in [range] + sorted <==> x == range || x in sorted;
      [range] + sorted
    else
      var rest := Insert(range, sorted[1..]);
      assert sorted == [sorted[0]] + sorted[1..];
      assert forall x :: x in sorted <==> x == sorted[0] || x in sorted[1..];
      assert forall i :: 0 <= i < |rest| ==> rest[i] in rest;
      [sorted[0]] + rest
  }

  function Sort(ranges: seq<CharacterRange>): (r: seq<CharacterRange>)
    ensures Sorted(r) && multiset(r) == multiset(ranges)
    ensures forall x :: x in r <==> x in ranges
  {
    if ranges == [] then []
    else
      assert ranges == [ranges[0]] + ranges[1..];
      Insert(ranges[0], Sort(ranges[1..]))
  }

  lemma SortKeepsMembers(ranges: seq<CharacterRange>, character: nat)
    ensures Member(Sort(ranges), character) <==> Member(ranges, character)
  {
    hide Sort;
    var sorted := Sort(ranges);
    if Member(ranges, character) {
      var i :| 0 <= i < |ranges| && ranges[i].start <= character <= ranges[i].end;
      assert ranges[i] in sorted;
    }
    if Member(sorted, character) {
      var i :| 0 <= i < |sorted| && sorted[i].start <= character <= sorted[i].end;
      assert sorted[i] in ranges;
    }
  }

  lemma SortKeepsBounds(ranges: seq<CharacterRange>)
    requires CodePoints(ranges)
    ensures CodePoints(Sort(ranges))
  {
    hide Sort;
    var sorted := Sort(ranges);
    forall i | 0 <= i < |sorted|
      ensures sorted[i].start <= sorted[i].end <= MAX_CODE_POINT
    {
      assert sorted[i] in ranges;
    }
  }

  // ---- Normalising ----

  /** The merge step of normalisation widens the last range. */
  lemma WidenLast(ranges: seq<CharacterRange>, range: CharacterRange, character: nat)
    requires ranges != [] && ranges[|ranges| - 1].start <= range.start <= ranges[|ranges| - 1].end + 1
    ensures var last := ranges[|ranges| - 1];
            var widened := CharacterRange(last.start, Max(last.end, range.end));
            Member(ranges[..|ranges| - 1] + [widened], character) <==> Member(ranges, character) || Covers(range, character)
  {
    var last := ranges[|ranges| - 1];
    var widened := CharacterRange(last.start, Max(last.end, range.end));
    MemberLast(ranges[..|ranges| - 1], widened, character);
    assert ranges == ranges[..|ranges| - 1] + [last];
    MemberLast(ranges[..|ranges| - 1], last, character);
  }

  method NormalizeRanges(ranges: seq<CharacterRange>) returns (r: seq<CharacterRange>)
    requires CodePoints(ranges)
    ensures Normalized(r) && CodePoints(r)
    ensures forall c: nat :: Member(r, c) <==> Member(ranges, c)
  {
    hide Member;
    hide Sort;
    var sorted := Sort(ranges);
    SortKeepsBounds(ranges);
    r := [];
    assert sorted[..0] == [];
    for i := 0 to |sorted|
      invariant Normalized(r) && CodePoints(r)
      invariant r != [] ==> i > 0 && r[|r| - 1].start <= sorted[i - 1].start
      invariant forall c: nat :: Member(r, c) <==> Member(sorted[..i], c)
    {
      var range := sorted[i];
      ghost var before := r;
      assert i > 0 ==> Before(sorted[i - 1], sorted[i]);
      if r != [] && range.start <= SaturatingNext(r[|r| - 1].end) {
        var last := r[|r| - 1];
        r := r[..|r| - 1] + [CharacterRange(last.start, Max(last.end, range.end))];
        forall c: nat
          ensures Member(r, c) <==> Member(sorted[..i + 1], c)
        {
          WidenLast(before, range, c);
          MemberNext(sorted, i, c);
        }
      } else {
        r := r + [range];
        forall c: nat
          ensures Member(r, c) <==> Member(sorted[..i + 1], c)
        {
          MemberLast(before, range, c);
          MemberNext(sorted, i, c);
        }
      }
    }
    assert sorted[..|sorted|] == sorted;
    forall c: nat
      ensures Member(r, c) <==> Member(ranges, c)
    {
      SortKeepsMembers(ranges, c);
    }
  }

  // ---- Union ----

  lemma MemberJoin(left: seq<CharacterRange>, right: seq<CharacterRange>, character: nat)
    ensures Member(left + right, character) <==> Member(left, character) || Member(right, character)
  {
    if Member(left, character) {
      var i :| 0 <= i < |left| && left[i].start <= character <= left[i].end;
      assert (left + right)[i] == left[i];
    }
    if Member(right, character) {
      var i :| 0 <= i < |right| && right[i].start <= character <= right[i].end;
      assert (left + right)[|left| + i] == right[i];
    }
  }

  method UniteRanges(left: seq<CharacterRange>, right: seq<CharacterRange>) returns (r: seq<CharacterRange>)
    requires CodePoints(left) && CodePoints(right)
    ensures Normalized(r) && CodePoints(r)
    ensures forall c: nat :: Member(r, c) <==> Member(left, c) || Member(right, c)
  {
    hide Member;
    r := NormalizeRanges(left + right);
    forall c: nat
      ensures Member(left + right, c) <==> Member(left, c) || Member(right, c)
    {
      MemberJoin(left, right, c);
    }
  }

  // ---- Intersection ----

  /** What follows a range of a normalised sequence lies beyond it. */
  lemma Apart(ranges: seq<CharacterRange>, i: nat, character: nat)
    requires Normalized(ranges) && i < |ranges| && Member(ranges[i + 1..], character)
    ensures ranges[i].end + 1 < character
  {
    var k :| 0 <= k < |ranges[i + 1..]| && ranges[i + 1..][k].start <= character <= ranges[i + 1..][k].end;
    assert ranges[i + 1..][k] == ranges[i + 1 + k];
  }

  lemma MemberFrom(ranges: seq<CharacterRange>, i: nat, character: nat)
    requires i < |ranges|
    ensures Member(ranges[i..], character) <==> Covers(ranges[i], character) || Member(ranges[i + 1..], character)
  {
    assert ranges[i..][1..] == ranges[i + 1..];
    MemberFirst(ranges[i..], character);
  }

  /** The range that ends first holds nothing that the rest of the other side could still meet. */
  lemma Overlap(left: seq<CharacterRange>, right: seq<CharacterRange>, i: nat, j: nat, character: nat)
    requires Normalized(left) && Normalized(right) && i < |left| && j < |right| && left[i].end <= right[j].end
    ensures Member(left[i..], character) && Member(right[j..], character) <==>
            || (Covers(left[i], character) && Covers(right[j], character))
            || (Member(left[i + 1..], character) && Member(right[j..], character))
  {
    hide Member;
    MemberFrom(left, i, character);
    MemberFrom(right, j, character);
    if Member(right[j + 1..], character) {
      Apart(right, j, character);
    }
  }

  method IntersectRanges(left: seq<CharacterRange>, right: seq<CharacterRange>) returns (r: seq<CharacterRange>)
    requires CodePoints(left) && CodePoints(right)
    ensures Normalized(r) && CodePoints(r)
    ensures forall c: nat :: Member(r, c) <==> Member(left, c) && Member(right, c)
  {
    hide Member;
    var a := NormalizeRanges(left);
    var b := NormalizeRanges(right);
    r := [];
    var i, j := 0, 0;
    assert a[0..] == a && b[0..] == b;
    Nothing();
    while i < |a| && j < |b|
      invariant i <= |a| && j <= |b|
      invariant Normalized(r) && CodePoints(r)
      invariant r != [] ==>
        (i > 0 && r[|r| - 1].end <= a[i - 1].end) || (j > 0 && r[|r| - 1].end <= b[j - 1].end)
      invariant forall c: nat ::
        Member(a, c) && Member(b, c) <==> Member(r, c) || (Member(a[i..], c) && Member(b[j..], c))
      decreases |a| - i + |b| - j
    {
      ghost var before, i', j' := r, i, j;
      var start, end := Max(a[i].start, b[j].start), Min(a[i].end, b[j].end);
      if start <= end {
        r := r + [CharacterRange(start, end)];
      }
      if a[i].end < b[j].end {
        i := i + 1;
      } else {
        j := j + 1;
      }
      forall c: nat
        ensures Member(a, c) && Member(b, c) <==> Member(r, c) || (Member(a[i..], c) && Member(b[j..], c))
      {
        MemberLast(before, CharacterRange(start, end), c);
        if a[i'].end < b[j'].end {
          Overlap(a, b, i', j', c);
        } else {
          Overlap(b, a, j', i', c);
        }
      }
    }
    assert a[i..] == [] || b[j..] == [];
  }

  lemma Nothing()
    ensures forall c: nat :: !Member([], c)
  {
  }

  // ---- Complement ----

  method ComplementRanges(ranges: seq<CharacterRange>, max: nat) returns (r: seq<CharacterRange>)
    requires CodePoints(ranges) && max <= MAX_CODE_POINT
    ensures Normalized(r)
    ensures forall c: nat :: c <= max ==> (Member(r, c) <==> !Member(ranges, c))
    ensures (forall i :: 0 <= i < |ranges| ==> ranges[i].end <= max) ==> forall c: nat :: Member(r, c) ==> c <= max
  {
    hide Member;
    var a := NormalizeRanges(ranges);
    r := [];
    var start := 0;
    Nothing();
    assert a[..0] == [];
    for i := 0 to |a|
      invariant start <= max
      invariant start == if i == 0 then 0 else a[i - 1].end + 1
      invariant Normalized(r) && (r != [] ==> r[|r| - 1].end + 1 < start)
      invariant forall c: nat :: c < start ==> (Member(r, c) <==> !Member(a[..i], c))
      invariant forall c: nat :: Member(r, c) || Member(a[..i], c) ==> c < start
    {
      ghost var before := r;
      if a[i].start > start {
        r := r + [CharacterRange(start, a[i].start - 1)];
      }
      forall c: nat
        ensures c <= a[i].end ==> (Member(r, c) <==> !Member(a[..i + 1], c))
        ensures Member(r, c) || Member(a[..i + 1], c) ==> c <= a[i].end
      {
        MemberNext(a, i, c);
        if a[i].start > start {
          MemberLast(before, CharacterRange(start, a[i].start - 1), c);
        }
      }
      if a[i].end >= max {
        SplitAfter(a, i);
        BoundedMembers(ranges, max);
        MemberNext(a, i, a[i].end);
        assert Member(a, a[i].end) && Member(ranges, a[i].end);
        return;
      }
      start := a[i].end + 1;
    }
    assert a[..|a|] == a;
    forall c: nat
      ensures Member(r + [CharacterRange(start, max)], c) <==> Member(r, c) || start <= c <= max
    {
      MemberLast(r, CharacterRange(start, max), c);
    }
    r := r + [CharacterRange(start, max)];
  }

  lemma SplitAfter(ranges: seq<CharacterRange>, i: nat)
    requires Normalized(ranges) && i < |ranges|
    ensures forall c: nat :: c <= ranges[i].end ==> (Member(ranges, c) <==> Member(ranges[..i + 1], c))
  {
    hide Member;
    forall c: nat | c <= ranges[i].end
      ensures Member(ranges, c) <==> Member(ranges[..i + 1], c)
    {
      assert ranges == ranges[..i + 1] + ranges[i + 1..];
      MemberJoin(ranges[..i + 1], ranges[i + 1..], c);
      if Member(ranges[i + 1..], c) {
        Apart(ranges, i, c);
      }
    }
  }

  lemma BoundedMembers(ranges: seq<CharacterRange>, max: nat)
    ensures (forall i :: 0 <= i < |ranges| ==> ranges[i].end <= max) ==> forall c: nat :: Member(ranges, c) ==> c <= max
  {
  }

  // ---- Difference ----

  /** The first `i` ranges on the left are finished. */
  ghost predicate Finished(r: seq<CharacterRange>, left: seq<CharacterRange>, i: nat, right: seq<CharacterRange>)
    requires i <= |left|
  {
    && Normalized(r) && CodePoints(r) && (r != [] ==> i > 0 && r[|r| - 1].end <= left[i - 1].end)
    && forall c: nat :: Member(r, c) <==> Member(left[..i], c) && !Member(right, c)
  }

  /** Within the range on the left that precedes `i`, everything before `start` is settled. */
  ghost predicate Settled(r: seq<CharacterRange>, left: seq<CharacterRange>, i: nat, right: seq<CharacterRange>, start: nat)
    requires i <= |left|
  {
    && Normalized(r) && CodePoints(r) && (r != [] ==> r[|r| - 1].end + 1 < start)
    && forall c: nat :: Member(r, c) <==> c < start && Member(left[..i], c) && !Member(right, c)
  }

  lemma EnterRange(r: seq<CharacterRange>, left: seq<CharacterRange>, i: nat, right: seq<CharacterRange>)
    requires Normalized(left) && i < |left| && Finished(r, left, i, right)
    ensures Settled(r, left, i + 1, right, left[i].start)
  {
    hide Member;
    forall c: nat
      ensures Member(r, c) <==> c < left[i].start && Member(left[..i + 1], c) && !Member(right, c)
    {
      MemberNext(left, i, c);
      EarlierBelow(left, i, c);
    }
  }

  lemma EarlierBelow(ranges: seq<CharacterRange>, i: nat, character: nat)
    requires Normalized(ranges) && i < |ranges|
    ensures Member(ranges[..i], character) ==> character < ranges[i].start
  {
  }

  /** Which characters of a stretch are on the right, when `index` is the first range that reaches into it. */
  lemma Reached(right: seq<CharacterRange>, index: nat, start: nat, character: nat)
    requires Normalized(right) && index <= |right| && start <= character
    requires index > 0 ==> right[index - 1].end < start
    ensures index == |right| ==> !Member(right, character)
    ensures index < |right| && character <= right[index].end ==> (Member(right, character) <==> right[index].start <= character)
  {
    if Member(right, character) {
      var k :| 0 <= k < |right| && right[k].start <= character <= right[k].end;
      assert k >= index;
    }
  }

  /** One removed range is taken out of the current one. */
  lemma RemovePart(r: seq<CharacterRange>, r': seq<CharacterRange>, left: seq<CharacterRange>, i: nat,
                   right: seq<CharacterRange>, index: nat, start: nat)
    requires Normalized(left) && Normalized(right) && CodePoints(left) && i < |left| && index < |right|
    requires Settled(r, left, i + 1, right, start) && left[i].start <= start <= left[i].end
    requires index > 0 ==> right[index - 1].end < start
    requires start <= right[index].end && right[index].start <= left[i].end
    requires r' == if right[index].start > start then r + [CharacterRange(start, right[index].start - 1)] else r
    ensures Settled(r', left, i + 1, right, Min(left[i].end, right[index].end) + 1)
  {
    hide Member;
    var removed := right[index];
    forall c: nat
      ensures Member(r', c) <==>
              c < Min(left[i].end, removed.end) + 1 && Member(left[..i + 1], c) && !Member(right, c)
    {
      MemberNext(left, i, c);
      if start <= c {
        Reached(right, index, start, c);
      }
      if removed.start > start {
        MemberLast(r, CharacterRange(start, removed.start - 1), c);
      }
    }
  }

  /** What is left of the current range after the last removed one is kept. */
  lemma KeepRest(r: seq<CharacterRange>, r': seq<CharacterRange>, left: seq<CharacterRange>, i: nat,
                 right: seq<CharacterRange>, index: nat, start: nat)
    requires Normalized(left) && Normalized(right) && CodePoints(left) && i < |left| && index <= |right|
    requires Settled(r, left, i + 1, right, start) && left[i].start <= start <= left[i].end + 1
    requires start <= left[i].end ==>
      (index > 0 ==> right[index - 1].end < start) && (index < |right| ==> right[index].start > left[i].end)
    requires r' == if start <= left[i].end then r + [CharacterRange(start, left[i].end)] else r
    ensures Finished(r', left, i + 1, right)
  {
    hide Member;
    forall c: nat
      ensures Member(r', c) <==> Member(left[..i + 1], c) && !Member(right, c)
    {
      MemberNext(left, i, c);
      EarlierBelow(left, i, c);
      if start <= left[i].end {
        MemberLast(r, CharacterRange(start, left[i].end), c);
        if start <= c <= left[i].end {
          Reached(right, index, start, c);
        }
      }
    }
  }

  method SubtractRanges(left: seq<CharacterRange>, right: seq<CharacterRange>) returns (r: seq<CharacterRange>)
    requires CodePoints(left) && CodePoints(right)
    ensures Normalized(r) && CodePoints(r)
    ensures forall c: nat :: Member(r, c) <==> Member(left, c) && !Member(right, c)
  {
    hide Settled;
    hide Sort;
    hide Member;
    var a := NormalizeRanges(left);
    var b := NormalizeRanges(right);
    r := [];
    var first := 0;
    Nothing();
    assert a[..0] == [];
    for i := 0 to |a|
      invariant first <= |b| && (first > 0 ==> i > 0 && b[first - 1].end < a[i - 1].start)
      invariant Finished(r, a, i, b)
    {
      EnterRange(r, a, i, b);
      var start := a[i].start;
      while first < |b| && b[first].end < start
        invariant first <= |b| && (first > 0 ==> b[first - 1].end < start)
      {
        first := first + 1;
      }
      var index := first;
      while index < |b| && b[index].start <= a[i].end
        invariant first <= index <= |b| && a[i].start <= start <= a[i].end
        invariant index > 0 ==> b[index - 1].end < start
        invariant index < |b| ==> start <= b[index].end
        invariant Settled(r, a, i + 1, b, start)
      {
        var removed := b[index];
        ghost var before := r;
        if removed.start > start {
          r := r + [CharacterRange(start, removed.start - 1)];
        }
        RemovePart(before, r, a, i, b, index, start);
        if removed.end >= a[i].end {
          start := SaturatingNext(a[i].end);
          break;
        }
        start := Max(start, SaturatingNext(removed.end));
        index := index + 1;
      }
      ghost var before := r;
      if start <= a[i].end {
        r := r + [CharacterRange(start, a[i].end)];
      }
      KeepRest(before, r, a, i, b, index, start);
    }
    assert a[..|a|] == a;
  }
}
