/** Inclusive character ranges, the sets they denote, and the executor's lookup. */
module CharacterRanges {
  datatype CharacterRange = CharacterRange(start: nat, end: nat)

  /** Plain membership: some range covers the character. */
  predicate Member(ranges: seq<CharacterRange>, character: nat) {
    exists i :: 0 <= i < |ranges| && ranges[i].start <= character <= ranges[i].end
  }

  /** Sorted, non-empty, disjoint and non-adjacent ranges. */
  predicate Normalized(ranges: seq<CharacterRange>) {
    && (forall i :: 0 <= i < |ranges| ==> ranges[i].start <= ranges[i].end)
    && (forall i, j :: 0 <= i < j < |ranges| ==> ranges[i].end + 1 < ranges[j].start)
  }

  /** Binary search for the number of leading ranges that start at or before `character`. */
  function PartitionPoint(ranges: seq<CharacterRange>, character: nat, low: nat, high: nat): (r: nat)
    requires low <= high <= |ranges|
    ensures low <= r <= high
    decreases high - low
  {
    if low == high then low
    else
      var middle := (low + high) / 2;
      if ranges[middle].start <= character then PartitionPoint(ranges, character, middle + 1, high)
      else PartitionPoint(ranges, character, low, middle)
  }

  /** The executor's membership test: only the last range starting at or before the character is inspected. */
  predicate RangeContains(ranges: seq<CharacterRange>, character: nat) {
    var candidate := PartitionPoint(ranges, character, 0, |ranges|);
    candidate > 0 && character <= ranges[candidate - 1].end
  }

  lemma {:induction false} PartitionPointSplits(ranges: seq<CharacterRange>, character: nat, low: nat, high: nat)
    requires Normalized(ranges)
    requires low <= high <= |ranges|
    requires forall i :: 0 <= i < low ==> ranges[i].start <= character
    requires forall i :: high <= i < |ranges| ==> ranges[i].start > character
    ensures var p := PartitionPoint(ranges, character, low, high);
            && (forall i :: 0 <= i < p ==> ranges[i].start <= character)
            && (forall i :: p <= i < |ranges| ==> ranges[i].start > character)
    decreases high - low
  {
    if low < high {
      var middle := (low + high) / 2;
      if ranges[middle].start <= character {
        PartitionPointSplits(ranges, character, middle + 1, high);
      } else {
        PartitionPointSplits(ranges, character, low, middle);
      }
    }
  }

  /** On normalised ranges the binary search decides plain membership. */
  lemma RangeContainsIsMember(ranges: seq<CharacterRange>, character: nat)
    requires Normalized(ranges)
    ensures RangeContains(ranges, character) <==> Member(ranges, character)
  {
    PartitionPointSplits(ranges, character, 0, |ranges|);
  }
}
