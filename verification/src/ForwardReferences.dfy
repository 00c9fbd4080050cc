/**
 * References to a named group that stands further on. The rough scan that looks for the group goes one unit
 * too far after each name, and may count parentheses that open nothing.
 */
module ForwardReferences {
  import opened Basics
  import opened Characters
  import opened Prepass
  import opened Syntax
  import opened PrepassAgrees
  import opened Trees
  import opened CompiledPrograms
  import opened Machine
  import opened Code
  import opened Validation
  import P = Pattern

  // ---- Where the scan cannot go too far ----

  /** What follows the name of a group is neither a class nor an escape that hides a bracket or a backslash. */
  predicate Regular(x: Context) {
    forall p: nat :: p < |x.units| && x.units[p] == OPEN && NamedGroup(x.units, p) ==> RegularAt(x, p)
  }

  predicate RegularAt(x: Context, p: nat) {
    var end := GroupName(x, p + 3, 0);
    end.Some? && Skippable(x, end.value)
  }

  predicate Skippable(x: Context, p: nat) {
    At(x, p) != OPEN_CLASS && (At(x, p) == BACKSLASH ==> At(x, p + 1) !in {OPEN, OPEN_CLASS, BACKSLASH})
  }

  lemma {:induction false} TraceBounds(x: Context, p: nat, inside: bool, so: Trail)
    requires so.captures <= CAPTURE_COUNT_MAX
    ensures so.captures <= Trace(x, p, inside, so).captures <= CAPTURE_COUNT_MAX
  {
    ScanIsTrace(x, p, inside, so);
    ScanBounds(x.units, p, inside, Summary(so.captures, so.named));
  }

  /** A scan that starts with more captures ends with no fewer. */
  lemma {:induction false} TraceMore(x: Context, p: nat, inside: bool, so: Trail, more: Trail)
    requires so.captures <= more.captures <= CAPTURE_COUNT_MAX
    ensures Trace(x, p, inside, so).captures <= Trace(x, p, inside, more).captures
    decreases |x.units| - p
  {
    hide GroupName;
    hide NameFrom;
    if more.captures == CAPTURE_COUNT_MAX {
      TraceBounds(x, p, inside, so);
    } else if p < |x.units| {
      if x.units[p] == BACKSLASH {
        TraceMore(x, p + 2, inside, so, more);
      } else if inside {
        TraceMore(x, p + 1, x.units[p] != CLOSE_CLASS, so, more);
      } else if x.units[p] == OPEN {
        TraceMore(x, p + 1, false, Grown(x, p, so), Grown(x, p, more));
      } else {
        TraceMore(x, p + 1, x.units[p] == OPEN_CLASS, so, more);
      }
    }
  }

  /** From a named group the scan goes on behind the name. */
  lemma BehindName(x: Context, p: nat, so: Trail)
    requires At(x, p) == OPEN && NamedGroup(x.units, p) && GroupName(x, p + 3, 0).Some?
    requires so.captures < CAPTURE_COUNT_MAX
    ensures Trace(x, p, false, so) == Trace(x, GroupName(x, p + 3, 0).value, false, Grown(x, p, so))
  {
    hide Trace;
    hide GroupName;
    var next := Grown(x, p, so);
    OpenStep(x, p, so);
    QuietStep(x, p + 1, false, next);
    QuietStep(x, p + 2, false, next);
    GroupNameScan(x, p + 3, 0, false, next);
  }

  /** A unit that can be skipped: without it the scan finds the same, or less if it opens a group. */
  lemma SkipsOne(x: Context, p: nat, so: Trail)
    requires Skippable(x, p) && so.captures <= CAPTURE_COUNT_MAX
    ensures Trace(x, p + 1, false, so).captures <= Trace(x, p, false, so).captures
    ensures !Opens(x, p) ==> Trace(x, p + 1, false, so) == Trace(x, p, false, so)
  {
    hide GroupName;
    hide NameFrom;
    if so.captures == CAPTURE_COUNT_MAX {
      Stopped(x, p, p + 1, false, so);
    } else if At(x, p) == OPEN {
      TraceMore(x, p + 1, false, so, Grown(x, p, so));
    } else if At(x, p) == BACKSLASH {
      assert Trace(x, p, false, so) == Trace(x, p + 2, false, so);
      assert Trace(x, p + 1, false, so) == Trace(x, p + 2, false, so);
    }
  }

  /** A capturing group opens here. */
  predicate Opens(x: Context, p: nat) {
    At(x, p) == OPEN && (PlainGroup(x.units, p) || NamedGroup(x.units, p))
  }

  /** One step of both scans. */
  lemma BothStep(x: Context, name: Name, p: nat, inside: bool, so: Trail)
    ensures p >= |x.units| || so.captures >= CAPTURE_COUNT_MAX ==>
      Trace(x, p, inside, so) == so && Matching(x, name, p, inside, so.captures) == []
    ensures p < |x.units| && so.captures < CAPTURE_COUNT_MAX && !(x.units[p] == OPEN && !inside && NamedGroup(x.units, p)) ==>
      var (q, inside', so') := if x.units[p] == BACKSLASH then (p + 2, inside, so)
                               else if inside then (p + 1, x.units[p] != CLOSE_CLASS, so)
                               else if x.units[p] == OPEN then (p + 1, false, Grown(x, p, so))
                               else (p + 1, x.units[p] == OPEN_CLASS, so);
      && Trace(x, p, inside, so) == Trace(x, q, inside', so')
      && Matching(x, name, p, inside, so.captures) == Matching(x, name, q, inside', so'.captures)
      && so'.found == so.found && so'.captures <= so.captures + 1
    ensures p < |x.units| && so.captures < CAPTURE_COUNT_MAX && x.units[p] == OPEN && !inside && NamedGroup(x.units, p)
            && GroupName(x, p + 3, 0).Some? ==>
      var end := GroupName(x, p + 3, 0).value;
      && Matching(x, name, p, inside, so.captures) ==
         (if NameAt(x, p + 3) == name then [so.captures] else []) + Matching(x, name, end + 1, false, so.captures + 1)
      && Trace(x, p, inside, so) == Trace(x, end, false, Grown(x, p, so))
      && Grown(x, p, so).captures == so.captures + 1
      && Grown(x, p, so).found == so.found + [(NameAt(x, p + 3), so.captures)]
  {
    hide GroupName;
    hide NameFrom;
    if p < |x.units| && so.captures < CAPTURE_COUNT_MAX && x.units[p] == OPEN && !inside && NamedGroup(x.units, p)
       && GroupName(x, p + 3, 0).Some?
    {
      BehindName(x, p, so);
    }
  }

  lemma {:induction false} MatchingBelow(x: Context, name: Name, p: nat, inside: bool, so: Trail)
    requires Regular(x) && so.captures <= CAPTURE_COUNT_MAX
    ensures P.Below(Matching(x, name, p, inside, so.captures), Trace(x, p, inside, so).captures)
    decreases |x.units| - p
  {
    hide GroupName;
    hide NameFrom;
    hide Matching;
    hide Trace;
    hide Grown;
    hide Skippable;
    BothStep(x, name, p, inside, so);
    if p < |x.units| && so.captures < CAPTURE_COUNT_MAX {
      if x.units[p] == BACKSLASH {
        MatchingBelow(x, name, p + 2, inside, so);
      } else if inside {
        MatchingBelow(x, name, p + 1, x.units[p] != CLOSE_CLASS, so);
      } else if x.units[p] != OPEN {
        MatchingBelow(x, name, p + 1, x.units[p] == OPEN_CLASS, so);
      } else if !NamedGroup(x.units, p) {
        MatchingBelow(x, name, p + 1, false, Grown(x, p, so));
      } else {
        assert RegularAt(x, p);
        var end, next := GroupName(x, p + 3, 0).value, Grown(x, p, so);
        MatchingBelow(x, name, end + 1, false, next);
        SkipsOne(x, end, next);
        TraceBounds(x, end + 1, false, next);
      }
    }
  }

  /** In a regular pattern every forward reference is in range. */
  lemma RegularInRange(x: Context, names: set<Name>)
    requires Regular(x)
    ensures InRange(x, names, Scan(x.units, 0, false, Summary(1, false)).captures)
  {
    hide Matching;
    hide Scan;
    hide Trace;
    hide Regular;
    ScanIsTrace(x, 0, false, Trail(1, false, []));
    forall name | name in names
      ensures P.Below(Matching(x, name, 0, false, 1), Scan(x.units, 0, false, Summary(1, false)).captures)
    {
      MatchingBelow(x, name, 0, false, Trail(1, false, []));
    }
  }

  /** An accepted regular pattern has a valid tree. */
  lemma RegularIsValid(x: Context, m: P.Modifiers)
    requires Parse(x, m).Some? && x.total == Scan(x.units, 0, false, Summary(1, false)).captures && Regular(x)
    ensures ValidPattern(Tree(x, m), Parse(x, m).value.captures)
  {
    hide Scan;
    hide Disjunction;
    hide Regular;
    hide ValidPattern;
    hide ArrangedPattern;
    hide InRange;
    AcceptedIsArranged(x, m);
    AcceptedIsValid(x, m);
    RegularInRange(x, Parse(x, m).value.forward);
  }

  // ---- Where the scan is right ----

  /** Moreover no capturing group opens right behind the name of another. */
  predicate Exact(x: Context) {
    Regular(x) && forall p: nat :: p < |x.units| && x.units[p] == OPEN && NamedGroup(x.units, p) ==> ExactAt(x, p)
  }

  predicate ExactAt(x: Context, p: nat) {
    var end := GroupName(x, p + 3, 0);
    end.Some? ==> !Opens(x, end.value)
  }

  /** The captures found for a name. */
  function Select(found: seq<(Name, nat)>, name: Name): seq<nat> {
    if found == [] then []
    else Select(found[..|found| - 1], name) + (if found[|found| - 1].0 == name then [found[|found| - 1].1] else [])
  }

  lemma SelectLast(found: seq<(Name, nat)>, last: (Name, nat), name: Name)
    ensures Select(found + [last], name) == Select(found, name) + (if last.0 == name then [last.1] else [])
  {
    assert (found + [last])[..|found|] == found;
  }

  lemma {:induction false} MatchingIsTrace(x: Context, name: Name, p: nat, inside: bool, so: Trail)
    requires Exact(x) && so.captures <= CAPTURE_COUNT_MAX
    ensures Select(Trace(x, p, inside, so).found, name) == Select(so.found, name) + Matching(x, name, p, inside, so.captures)
    decreases |x.units| - p
  {
    hide GroupName;
    hide NameFrom;
    hide Select;
    hide Matching;
    hide Trace;
    hide Grown;
    hide Skippable;
    BothStep(x, name, p, inside, so);
    if p < |x.units| && so.captures < CAPTURE_COUNT_MAX {
      if x.units[p] == BACKSLASH {
        MatchingIsTrace(x, name, p + 2, inside, so);
      } else if inside {
        MatchingIsTrace(x, name, p + 1, x.units[p] != CLOSE_CLASS, so);
      } else if x.units[p] != OPEN {
        MatchingIsTrace(x, name, p + 1, x.units[p] == OPEN_CLASS, so);
      } else if !NamedGroup(x.units, p) {
        MatchingIsTrace(x, name, p + 1, false, Grown(x, p, so));
      } else {
        assert RegularAt(x, p) && ExactAt(x, p);
        var end, next := GroupName(x, p + 3, 0).value, Grown(x, p, so);
        MatchingIsTrace(x, name, end + 1, false, next);
        SkipsOne(x, end, next);
        SelectLast(so.found, (NameAt(x, p + 3), so.captures), name);
      }
    }
  }

  lemma {:induction false} SelectIsResolve(names: seq<Entry>, name: Name)
    ensures Select(Pairs(names), name) == Resolve(names, name)
    decreases |names|
  {
    if names != [] {
      var last := names[|names| - 1];
      SelectIsResolve(names[..|names| - 1], name);
      ResolveLast(names[..|names| - 1], last, name);
      assert names == names[..|names| - 1] + [last];
      assert Pairs(names)[..|names| - 1] == Pairs(names[..|names| - 1]);
    }
  }

  function ResolveOne(entry: Entry, name: Name): seq<nat> {
    if entry.name == name then [entry.capture] else []
  }

  lemma ResolveFirst(names: seq<Entry>, name: Name)
    ensures names == [] ==> Resolve(names, name) == []
    ensures names != [] ==> Resolve(names, name) == ResolveOne(names[0], name) + Resolve(names[1..], name)
  {
  }

  lemma {:induction false} ResolveLast(names: seq<Entry>, last: Entry, name: Name)
    ensures Resolve(names + [last], name) == Resolve(names, name) + ResolveOne(last, name)
    decreases |names|
  {
    hide Resolve;
    hide ResolveOne;
    ResolveFirst(names, name);
    ResolveFirst(names + [last], name);
    if names == [] {
      assert [last][1..] == [] && names + [last] == [last];
      ResolveFirst([], name);
    } else {
      ResolveLast(names[1..], last, name);
      assert (names + [last])[1..] == names[1..] + [last];
    }
  }

  /** In such a pattern a forward reference names all the groups of that name in the pattern, and nothing else. */
  lemma ExactResolves(x: Context, m: P.Modifiers, name: Name)
    requires Parse(x, m).Some? && Exact(x)
    ensures Matching(x, name, 0, false, 1) == Resolve(Parse(x, m).value.names, name)
  {
    hide Trace;
    hide Disjunction;
    hide Matching;
    hide Resolve;
    TraceIsExact(x, m);
    MatchingIsTrace(x, name, 0, false, Trail(1, false, []));
    SelectIsResolve(Parse(x, m).value.names, name);
  }

  // ---- Where it does go wrong ----

  /** The pattern \k<b>(?<a>..)(?<b>) with two units in place of the dots. */
  function Sample(first: Unit, second: Unit): seq<Unit> {
    [0x5c, 0x6b, 0x3c, 0x62, 0x3e, 0x28, 0x3f, 0x3c, 0x61, 0x3e, first, second, 0x29, 0x28, 0x3f, 0x3c, 0x62, 0x3e, 0x29]
  }

  /** The pattern \k<b>(?<a>\()(?<b>). */
  const QUIRK := Sample(BACKSLASH, OPEN)

  /** The pattern \k<b>(?<a>())(?<b>). */
  const SHIFTED := Sample(OPEN, CLOSE)

  const B: Name := [0x62]
  const A: Name := [0x61]

  lemma OneLetter(x: Context, p: nat)
    requires p + 1 < |x.units| && IsLetter(x.units[p]) && x.units[p + 1] == 0x3e
    ensures GroupName(x, p, 0) == Some(p + 2) && NameAt(x, p) == [x.units[p]]
  {
    assert NameCharacter(x, p) == Some((x.units[p], p + 1));
    assert GroupName(x, p + 1, 1) == Some(p + 2);
    assert NameFrom(x, p + 1, 1) == [];
  }

  predicate IsSample(x: Context) {
    x.units == QUIRK || x.units == SHIFTED
  }

  lemma Laid(first: Unit, second: Unit)
    ensures var s := Sample(first, second);
            && |s| == 19
            && s[0] == BACKSLASH && s[1] == 0x6b && s[2] == LESS && s[3] == 0x62 && s[4] == 0x3e
            && s[5] == OPEN && s[6] == QUESTION && s[7] == LESS && s[8] == 0x61 && s[9] == 0x3e
            && s[10] == first && s[11] == second && s[12] == CLOSE && s[13] == OPEN && s[14] == QUESTION && s[15] == LESS
            && s[16] == 0x62 && s[17] == 0x3e && s[18] == CLOSE
  {
  }

  lemma SampleLaid(x: Context)
    ensures IsSample(x) ==>
      && |x.units| == 19 && At(x, 19) == -1
      && At(x, 0) == BACKSLASH && At(x, 1) == 0x6b && At(x, 2) == LESS && At(x, 3) == 0x62 && At(x, 4) == 0x3e
      && At(x, 5) == OPEN && At(x, 6) == QUESTION && At(x, 7) == LESS && At(x, 8) == 0x61 && At(x, 9) == 0x3e
      && At(x, 12) == CLOSE && At(x, 13) == OPEN && At(x, 14) == QUESTION && At(x, 15) == LESS
      && At(x, 16) == 0x62 && At(x, 17) == 0x3e && At(x, 18) == CLOSE
    ensures x.units == QUIRK ==> At(x, 10) == BACKSLASH && At(x, 11) == OPEN
    ensures x.units == SHIFTED ==> At(x, 10) == OPEN && At(x, 11) == CLOSE
  {
    hide Sample;
    Laid(BACKSLASH, OPEN);
    Laid(OPEN, CLOSE);
  }

  lemma SampleNames(x: Context)
    requires IsSample(x)
    ensures GroupName(x, 3, 0) == Some(5) && NameAt(x, 3) == B
    ensures GroupName(x, 8, 0) == Some(10) && NameAt(x, 8) == A
    ensures GroupName(x, 16, 0) == Some(18) && NameAt(x, 16) == B
    ensures A != B
  {
    hide GroupName;
    hide NameFrom;
    OneLetter(x, 3);
    OneLetter(x, 8);
    OneLetter(x, 16);
    assert A[0] != B[0];
  }

  lemma {:induction false} MatchingRun(x: Context, name: Name, p: nat, q: nat, captures: nat)
    requires p <= q && captures < CAPTURE_COUNT_MAX && forall i :: p <= i < q ==> Quiet(At(x, i))
    ensures Matching(x, name, p, false, captures) == Matching(x, name, q, false, captures)
    decreases q - p
  {
    if p < q {
      assert Quiet(At(x, p));
      MatchingRun(x, name, p + 1, q, captures);
    }
  }

  /** The rough scan of the one pattern takes the escaped parenthesis for a group, and of the other misses one. */
  lemma Misled(x: Context)
    ensures x.units == QUIRK ==> Matching(x, B, 0, false, 1) == [3]
    ensures x.units == SHIFTED ==> Matching(x, B, 0, false, 1) == [2]
  {
    hide Sample;
    hide GroupName;
    hide NameFrom;
    SampleLaid(x);
    if IsSample(x) {
      var c := if x.units == QUIRK then 3 else 2;
      SampleNames(x);
      assert Matching(x, B, 19, false, c + 1) == [];
      assert Matching(x, B, 13, false, c) == [c];
      assert Matching(x, B, 11, false, 2) == Matching(x, B, 12, false, c) == [c];
      assert Matching(x, B, 5, false, 1) == [c];
      MatchingRun(x, B, 2, 5, 1);
    }
  }

  /** A term without a quantifier. */
  lemma NextTerm(x: Context, m: P.Modifiers, s: State, inGroup: bool, depth: nat)
    requires Atom(x, m, s, depth).Some? && Atom(x, m, s, depth).value.1
    requires At(x, s.position) in {OPEN, BACKSLASH}
    requires At(x, Atom(x, m, s, depth).value.0.position) !in {0x2a, 0x2b, 0x3f, 0x7b}
    ensures Sequence(x, m, s, inGroup, depth) == Sequence(x, m, Atom(x, m, s, depth).value.0, inGroup, depth)
  {
    hide Atom;
    hide BraceQuantifier;
    var after := Atom(x, m, s, depth).value.0;
    assert Quantifier(x, after.position) == Some((after.position, None));
    assert after.(position := after.position) == after;
    NoBrace(x, s.position);
  }

  const AFTER_REFERENCE := State(5, 1, [], 0, {B})

  /** Behind the group a, and behind the group b. */
  function AfterFirst(captures: nat): State {
    State(13, captures, [Entry(A, 0, 1)], 0, {B})
  }

  function AfterSecond(capture: nat): State {
    State(19, capture + 1, [Entry(A, 0, 1), Entry(B, 0, capture)], 0, {B})
  }

  lemma ReferenceStep(x: Context, m: P.Modifiers)
    requires IsSample(x)
    ensures Atom(x, m, START, 0) == Some((AFTER_REFERENCE, true))
  {
    hide Sample;
    hide GroupName;
    hide NameFrom;
    hide Matching;
    hide CharacterClass;
    hide Group;
    hide PropertyEscape;
    hide UnicodeEscape;
    hide ControlEscape;
    hide DecimalEscape;
    SampleLaid(x);
    SampleNames(x);
    Misled(x);
    assert START.forward + {B} == {B};
    assert NamedReference(x, START, 2) == Some(AFTER_REFERENCE);
    assert Escape(x, m, START, 1) == Some((AFTER_REFERENCE, true));
  }

  const INSIDE := State(10, 2, [Entry(A, 0, 1)], 0, {B})

  /** What stands in the group a. */
  lemma InsideStep(x: Context, m: P.Modifiers)
    requires IsSample(x)
    ensures Atom(x, m, INSIDE, 1) == Some((INSIDE.(position := 12, captures := if x.units == QUIRK then 2 else 3), true))
  {
    hide Sample;
    hide CharacterClass;
    hide PropertyEscape;
    hide UnicodeEscape;
    hide ControlEscape;
    hide NamedReference;
    hide DecimalEscape;
    hide ModifierHead;
    SampleLaid(x);
    if x.units == QUIRK {
      assert Escape(x, m, INSIDE, 11) == Some((INSIDE.(position := 12), true));
    } else {
      var inner := INSIDE.(position := 11, captures := 3);
      assert INSIDE.names + [] == INSIDE.names;
      assert GroupHead(x, INSIDE, 11) == Some(inner);
      assert Sequence(x, m, inner, true, 2) == Some(inner);
      assert Disjunction(x, m, inner, true, 2) == Some(inner);
      assert Group(x, m, INSIDE, 11, 1) == Some(inner.(position := 12));
    }
  }

  lemma FirstGroupStep(x: Context, m: P.Modifiers)
    requires IsSample(x)
    ensures Atom(x, m, AFTER_REFERENCE, 0) == Some((AfterFirst(if x.units == QUIRK then 2 else 3), true))
  {
    hide Sample;
    hide GroupName;
    hide NameFrom;
    hide CharacterClass;
    hide Escape;
    hide ModifierHead;
    SampleLaid(x);
    SampleNames(x);
    assert [] + [Entry(A, 0, 1)] == [Entry(A, 0, 1)];
    assert GroupHead(x, AFTER_REFERENCE, 6) == Some(INSIDE);
    InsideStep(x, m);
    NextTerm(x, m, INSIDE, true, 1);
    var end := INSIDE.(position := 12, captures := if x.units == QUIRK then 2 else 3);
    assert Sequence(x, m, end, true, 1) == Some(end);
    assert Disjunction(x, m, INSIDE, true, 1) == Some(end);
    assert Group(x, m, AFTER_REFERENCE, 6, 0) == Some(end.(position := 13));
  }

  lemma SecondGroupStep(x: Context, m: P.Modifiers, c: nat)
    requires IsSample(x) && c < CAPTURE_COUNT_MAX
    ensures Atom(x, m, AfterFirst(c), 0) == Some((AfterSecond(c), true))
  {
    hide Sample;
    hide GroupName;
    hide NameFrom;
    hide CharacterClass;
    hide Escape;
    hide ModifierHead;
    SampleLaid(x);
    SampleNames(x);
    var inside := AfterSecond(c).(position := 18);
    assert [Entry(A, 0, 1)] + [Entry(B, 0, c)] == inside.names;
    assert GroupHead(x, AfterFirst(c), 14) == Some(inside);
    assert Sequence(x, m, inside, true, 1) == Some(inside);
    assert Disjunction(x, m, inside, true, 1) == Some(inside);
    assert Group(x, m, AfterFirst(c), 14, 0) == Some(AfterSecond(c));
  }

  /** With any flags and tables both patterns are accepted. */
  lemma SamplesAccepted(x: Context, m: P.Modifiers)
    requires IsSample(x)
    ensures Parse(x, m) == Some(AfterSecond(if x.units == QUIRK then 2 else 3))
    ensures Sequence(x, m, START, false, 0) == Parse(x, m)
  {
    hide Sample;
    hide Atom;
    SampleLaid(x);
    var c := if x.units == QUIRK then 2 else 3;
    ReferenceStep(x, m);
    FirstGroupStep(x, m);
    SecondGroupStep(x, m, c);
    NextTerm(x, m, START, false, 0);
    NextTerm(x, m, AFTER_REFERENCE, false, 0);
    NextTerm(x, m, AfterFirst(c), false, 0);
    assert Sequence(x, m, AfterSecond(c), false, 0) == Some(AfterSecond(c));
    assert Disjunction(x, m, START, false, 0) == Some(AfterSecond(c));
  }

  /** The reference of the one names a capture that does not exist. */
  lemma QuirkIsInvalid(x: Context, m: P.Modifiers)
    requires x.units == QUIRK && x.total == Scan(x.units, 0, false, Summary(1, false)).captures
    ensures Parse(x, m) == Some(AfterSecond(2)) && !InRange(x, {B}, 3) && !ValidPattern(Tree(x, m), 3)
  {
    hide Disjunction;
    hide Scan;
    hide Matching;
    hide DisjunctionTree;
    SamplesAccepted(x, m);
    Misled(x);
    AcceptedIsValid(x, m);
    assert B in {B} && [3][0] == 3;
  }

  /** The reference of the other names the group before the one it should. */
  lemma ShiftedIsWrong(x: Context, m: P.Modifiers)
    requires x.units == SHIFTED
    ensures Parse(x, m) == Some(AfterSecond(3)) && Matching(x, B, 0, false, 1) == [2] && Resolve(AfterSecond(3).names, B) == [3]
  {
    hide Disjunction;
    hide Matching;
    SamplesAccepted(x, m);
    Misled(x);
    SampleNames(x);
    assert AfterSecond(3).names == [Entry(A, 0, 1)] + [Entry(B, 0, 3)];
    ResolveLast([Entry(A, 0, 1)], Entry(B, 0, 3), B);
  }

  lemma QuirkAtom(x: Context, m: P.Modifiers)
    requires x.units == QUIRK && Atom(x, m, START, 0).Some?
    ensures AtomTree(x, m, START, 0) == P.BackReference([3])
  {
    hide Sample;
    hide GroupName;
    hide NameFrom;
    hide Matching;
    hide Group;
    hide CharacterClass;
    hide PropertyEscape;
    hide UnicodeEscape;
    hide ControlEscape;
    hide DecimalEscape;
    SampleLaid(x);
    SampleNames(x);
    Misled(x);
    assert NamedTree(x, START, 2) == P.BackReference([3]);
  }

  /** The tree of the one begins with the reference. */
  lemma QuirkTree(x: Context, m: P.Modifiers)
    requires x.units == QUIRK
    ensures Parse(x, m) == Some(AfterSecond(2))
    ensures var tree := Tree(x, m).alternatives;
            |tree| == 1 && tree[0].terms != [] && tree[0].terms[0] == P.Term(P.BackReference([3]), None)
  {
    hide Sample;
    hide Atom;
    hide AtomTree;
    hide Matching;
    SampleLaid(x);
    SamplesAccepted(x, m);
    ReferenceStep(x, m);
    QuirkAtom(x, m);
    assert Quantifier(x, 5) == Some((5, None));
    assert SequenceTree(x, m, START, false, 0)[0] == P.Term(P.BackReference([3]), None);
  }

  /** Code that begins with a reference out of range is not valid. */
  lemma FirstReferenceCode(canonicalize: Canonicalize, m: P.Modifiers, tree: P.Expression, capture: nat, total: nat, registers: nat)
    requires |tree.alternatives| == 1 && tree.alternatives[0].terms != [] && total <= capture
    requires tree.alternatives[0].terms[0] == P.Term(P.BackReference([capture]), None)
    ensures !ValidProgram(Program(canonicalize, m, tree), total, registers)
  {
    var terms := tree.alternatives[0].terms;
    var reference := Instruction.BackReference([capture], m.ignoreCase);
    assert CodeAtom(canonicalize, m, terms[0].atom, false, 1, 0) == [reference];
    assert CodeTerm(canonicalize, m, terms[0], false, 1, 0) == [reference];
    var code := CodeTerms(canonicalize, m, terms, false, 1, 0);
    assert code[0] == reference && CodeAlternatives(canonicalize, m, tree.alternatives, false, 1, 0) == code;
    var program := Program(canonicalize, m, tree);
    assert program[1] == reference;
    assert [capture][0] == capture;
    assert !FirstPass(program, total, registers, 1);
  }

  /** The validator refuses its code, whatever the number of registers. */
  lemma QuirkIsRejected(x: Context, m: P.Modifiers, canonicalize: Canonicalize, registers: nat)
    requires x.units == QUIRK
    ensures Parse(x, m) == Some(AfterSecond(2))
    ensures !ValidProgram(Program(canonicalize, m, Tree(x, m)), 3, registers)
  {
    hide Disjunction;
    hide DisjunctionTree;
    hide Program;
    hide ValidProgram;
    QuirkTree(x, m);
    FirstReferenceCode(canonicalize, m, Tree(x, m), 3, 3, registers);
  }
}
