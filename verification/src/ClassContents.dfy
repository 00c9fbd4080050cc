/** What a class denotes: a set of characters and an ordered set of strings; and its one normalised form. */
module ClassContents {
  import opened Basics
  import opened CharacterRanges
  import opened RangeAlgebra
  import P = Pattern

  type CodePoint = c: nat | c <= MAX_CODE_POINT

  type Text = seq<CodePoint>

  // ---- Ordered sets of strings ----

  function InsertText(s: Text, list: seq<Text>): (r: seq<Text>)
    ensures forall t :: t in r <==> t == s || t in list
  {
    if list == [] then [s]
    else if s == list[0] then list
    else if P.LexicographicLeq(s, list[0]) then [s] + list
    else [list[0]] + InsertText(s, list[1..])
  }

  function UniteTexts(a: seq<Text>, b: seq<Text>): (r: seq<Text>)
    ensures forall t :: t in r <==> t in a || t in b
    decreases |b|
  {
    if b == [] then a else UniteTexts(InsertText(b[0], a), b[1..])
  }

  /** The members of `a` that are, or are not, members of `b`. */
  function KeepTexts(a: seq<Text>, b: seq<Text>, wanted: bool): (r: seq<Text>)
    ensures forall t :: t in r <==> t in a && (t in b <==> wanted)
  {
    if a == [] then []
    else (if (a[0] in b) == wanted then [a[0]] else []) + KeepTexts(a[1..], b, wanted)
  }

  function MapText(f: CodePoint -> CodePoint, s: Text): (r: Text)
    ensures |r| == |s| && forall i :: 0 <= i < |s| ==> r[i] == f(s[i])
  {
    seq(|s|, i requires 0 <= i < |s| => f(s[i]))
  }

  function MapTexts(f: CodePoint -> CodePoint, list: seq<Text>): (r: seq<Text>)
    ensures forall t :: t in r <==> exists s :: s in list && t == MapText(f, s)
  {
    if list == [] then []
    else
      var last := list[|list| - 1];
      assert list == list[..|list| - 1] + [last];
      InsertText(MapText(f, last), MapTexts(f, list[..|list| - 1]))
  }

  // ---- Contents ----

  datatype Contents = Contents(characters: iset<CodePoint>, strings: seq<Text>)

  /** A string of one character is kept as that character. */
  type ClassSet = c: Contents | forall s :: s in c.strings ==> |s| != 1 witness Contents(iset{}, [])

  const NOTHING: ClassSet := Contents(iset{}, [])

  ghost function CharactersOf(ranges: seq<CharacterRange>): iset<CodePoint> {
    iset c: CodePoint | Member(ranges, c)
  }

  ghost function Interval(start: CodePoint, end: CodePoint): iset<CodePoint> {
    CharactersOf([CharacterRange(start, end)])
  }

  ghost function Outside(characters: iset<CodePoint>, max: CodePoint): iset<CodePoint> {
    iset c: CodePoint | c <= max && c !in characters
  }

  ghost function Image(f: CodePoint -> CodePoint, characters: iset<CodePoint>): iset<CodePoint> {
    iset c: CodePoint | c in characters :: f(c)
  }

  ghost function ImageSet(f: CodePoint -> CodePoint, set_: ClassSet): ClassSet {
    Contents(Image(f, set_.characters), MapTexts(f, set_.strings))
  }

  function Plain(characters: iset<CodePoint>): ClassSet {
    Contents(characters, [])
  }

  function AddText(s: Text, set_: ClassSet): ClassSet {
    if |s| == 1 then Contents(set_.characters + iset{s[0]}, set_.strings)
    else Contents(set_.characters, InsertText(s, set_.strings))
  }

  function AddTexts(list: seq<Text>, set_: ClassSet): ClassSet
    decreases |list|
  {
    if list == [] then set_ else AddTexts(list[1..], AddText(list[0], set_))
  }

  function Unite(a: ClassSet, b: ClassSet): ClassSet {
    Contents(a.characters + b.characters, UniteTexts(a.strings, b.strings))
  }

  function Intersect(a: ClassSet, b: ClassSet): ClassSet {
    Contents(a.characters * b.characters, KeepTexts(a.strings, b.strings, true))
  }

  function Subtract(a: ClassSet, b: ClassSet): ClassSet {
    Contents(a.characters - b.characters, KeepTexts(a.strings, b.strings, false))
  }

  // ---- The normalised form ----

  /** The ranges hold exactly these characters. */
  ghost predicate Hold(ranges: seq<CharacterRange>, characters: iset<CodePoint>) {
    CodePoints(ranges) && forall c: nat :: Member(ranges, c) <==> c <= MAX_CODE_POINT && c in characters
  }

  ghost predicate Denote(ranges: seq<CharacterRange>, characters: iset<CodePoint>) {
    Normalized(ranges) && Hold(ranges, characters)
  }

  lemma {:induction false} RangesBelow(characters: iset<CodePoint>, n: nat) returns (r: seq<CharacterRange>)
    requires n <= MAX_CODE_POINT + 1
    ensures Normalized(r) && CodePoints(r) && forall c: nat :: Member(r, c) <==> c < n && c in characters
    decreases n
  {
    hide Member;
    if n == 0 {
      r := [];
      Nothing();
    } else {
      var below := RangesBelow(characters, n - 1);
      var c := n - 1;
      var single := CharacterRange(c, c);
      if c !in characters {
        r := below;
      } else if below == [] || below[|below| - 1].end + 1 < c {
        r := below + [single];
        forall d: nat
          ensures Member(r, d) <==> Member(below, d) || d == c
        {
          MemberLast(below, single, d);
        }
        EndsBelow(below, c);
      } else {
        EndsBelow(below, c);
        var last := below[|below| - 1];
        r := below[..|below| - 1] + [CharacterRange(last.start, c)];
        forall d: nat
          ensures Member(r, d) <==> Member(below, d) || d == c
        {
          WidenLast(below, single, d);
        }
      }
    }
  }

  lemma EndsBelow(ranges: seq<CharacterRange>, n: nat)
    requires Normalized(ranges) && forall c: nat :: Member(ranges, c) ==> c < n
    ensures forall i :: 0 <= i < |ranges| ==> ranges[i].end < n
  {
    forall i | 0 <= i < |ranges|
      ensures ranges[i].end < n
    {
      assert Member(ranges, ranges[i].end);
    }
  }

  lemma DenotedExists(characters: iset<CodePoint>)
    ensures exists r :: Denote(r, characters)
  {
    var r := RangesBelow(characters, MAX_CODE_POINT + 1);
    assert Denote(r, characters);
  }

  /** Sorted, disjoint, non-adjacent ranges are determined by their characters. */
  lemma {:induction false} SameRanges(a: seq<CharacterRange>, b: seq<CharacterRange>)
    requires Normalized(a) && Normalized(b) && forall c: nat :: Member(a, c) <==> Member(b, c)
    ensures a == b
    decreases |a|
  {
    if a != [] && b != [] {
      SameFirst(a, b);
      forall c: nat
        ensures Member(a[1..], c) <==> Member(b[1..], c)
      {
        RestMembers(a, c);
        RestMembers(b, c);
      }
      SameRanges(a[1..], b[1..]);
    } else {
      assert a != [] ==> Member(a, a[0].start);
      assert b != [] ==> Member(b, b[0].start);
    }
  }

  lemma SameFirst(a: seq<CharacterRange>, b: seq<CharacterRange>)
    requires Normalized(a) && Normalized(b) && a != [] && b != []
    requires forall c: nat :: Member(a, c) <==> Member(b, c)
    ensures a[0] == b[0]
  {
    assert Member(a, a[0].start) && Member(b, b[0].start);
    assert Member(a, a[0].end) && Member(b, b[0].end);
    assert !Member(a, a[0].end + 1) && !Member(b, b[0].end + 1);
    FirstRun(a, b[0].start, b[0].end);
    FirstRun(b, a[0].start, a[0].end);
  }

  /** Members from the start of the first range on, without a gap, belong to the first range. */
  lemma {:induction false} FirstRun(ranges: seq<CharacterRange>, start: nat, end: nat)
    requires Normalized(ranges) && ranges != [] && start <= end
    requires forall c: nat :: start <= c <= end ==> Member(ranges, c)
    ensures ranges[0].start <= start
    ensures start <= ranges[0].end ==> end <= ranges[0].end
  {
    assert Member(ranges, start);
    assert start <= ranges[0].end < end ==> Member(ranges, ranges[0].end + 1);
  }

  lemma RestMembers(ranges: seq<CharacterRange>, c: nat)
    requires Normalized(ranges) && ranges != []
    ensures Member(ranges[1..], c) <==> Member(ranges, c) && c > ranges[0].end
  {
    MemberFirst(ranges, c);
    if Member(ranges[1..], c) {
      var i :| 0 <= i < |ranges[1..]| && ranges[1..][i].start <= c <= ranges[1..][i].end;
      assert ranges[1..][i] == ranges[i + 1];
    }
  }

  ghost function Ranges(characters: iset<CodePoint>): (r: seq<CharacterRange>)
    ensures Denote(r, characters)
  {
    DenotedExists(characters);
    var r :| Denote(r, characters);
    r
  }

  ghost function ClassOf(set_: ClassSet, inverted: bool): P.CharacterClass {
    P.CharacterClass(Ranges(set_.characters), set_.strings, inverted)
  }

  lemma ClassOfValid(set_: ClassSet, inverted: bool)
    requires inverted ==> set_.strings == []
    ensures P.ValidClass(ClassOf(set_, inverted))
    ensures forall s :: s in ClassOf(set_, inverted).strings ==> |s| != 1
  {
  }
}
