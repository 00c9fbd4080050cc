/** Every run of the atom table: what holds in each state, and which handles stay dead. */
module AtomRuns {
  import opened Basics
  import opened Characters
  import opened AtomNames
  import opened AtomTables
  import opened AtomInvariants

  // ---- Runs ----

  datatype Op =
    | Make(text: Text)                      // a new string cell comes to life
    | Drop(cell: nat)                       // the last reference to a cell is gone
    | Intern(text: Text, pinned: bool)
    | InternSymbol(text: Text)
    | NewSymbol(kind: Kind, description: Option<Text>, pinned: bool)
    | Dup(atom: Atom)
    | DupIndex(raw: nat)
    | Free(atom: Atom)
    | FreeIndex(raw: nat)
    | FreeShared(atom: Atom)
    | FreeIndexShared(raw: nat)
    | Remove(atom: Atom)
    | RemoveIndex(raw: nat)
    | PinAtom(atom: Atom)
    | SweepPool

  /** Who calls with a string holds its cell; a cell is never made twice, and no held cell dies. */
  ghost predicate Enabled(w: World, op: Op) {
    match op
    case Make(text) => text.cell !in w.cells
    case Drop(cell) =>
      forall i: nat :: Occupied(w.table, i) && EntryOf(w.table, i).text.Some? ==> EntryOf(w.table, i).text.value.cell != cell
    case Intern(text, _) => Known(w, text) && text.cell in w.alive
    case InternSymbol(text) => Known(w, text) && text.cell in w.alive
    case NewSymbol(kind, text, _) =>
      (kind.LocalSymbol? || kind.PrivateName?) && (text.Some? ==> Known(w, text.value) && text.value.cell in w.alive)
    case _ => true
  }

  function OrSame(r: Result<Table, Error>, t: Table): Table {
    if r.Ok? then r.value else t
  }

  function OrSameFirst(r: Result<(Table, bool), Error>, t: Table): Table {
    if r.Ok? then r.value.0 else t
  }

  function Next(w: World, op: Op): World {
    var t := w.table;
    match op
    case Make(text) => w.(cells := w.cells[text.cell := text.units], alive := w.alive + {text.cell})
    case Drop(cell) => w.(alive := w.alive - {cell})
    case Intern(text, pinned) =>
      var (t', r) := InternString(t, text, pinned, w.alive);
      w.(table := t', derived := w.derived + Spelled(t', r))
    case InternSymbol(text) => w.(table := InternGlobalSymbol(t, text).0)
    case NewSymbol(kind, text, pinned) => w.(table := Allocate(t, kind, text, pinned).0)
    case Dup(atom) => w.(table := OrSame(Retain(t, atom), t))
    case DupIndex(raw) => w.(table := OrSame(RetainIndex(t, raw), t))
    case Free(atom) => w.(table := Release(t, atom, w.alive).0)
    case FreeIndex(raw) => w.(table := ReleaseIndex(t, raw, w.alive).0)
    case FreeShared(atom) => w.(table := OrSameFirst(ReleaseShared(t, atom), t))
    case FreeIndexShared(raw) => w.(table := OrSameFirst(ReleaseIndexShared(t, raw), t))
    case Remove(atom) => w.(table := OrSame(RemoveReleased(t, atom, w.alive), t))
    case RemoveIndex(raw) => w.(table := OrSame(RemoveReleasedIndex(t, raw, w.alive), t))
    case PinAtom(atom) => w.(table := OrSame(Pin(t, atom), t))
    case SweepPool => w.(table := Sweep(t, w.alive))
  }

  ghost predicate Possible(w: World, ops: seq<Op>)
    decreases |ops|
  {
    ops == [] || (Enabled(w, ops[0]) && Possible(Next(w, ops[0]), ops[1..]))
  }

  function Run(w: World, ops: seq<Op>): World
    decreases |ops|
  {
    if ops == [] then w else Run(Next(w, ops[0]), ops[1..])
  }

  function Initial(id: nat, hash: Hash): World {
    World(New(id, hash), map[], {}, {})
  }

  // ---- How slots age ----

  /** A vacant slot that will never be used again. */
  ghost predicate Retired(t: Table, i: nat) {
    1 <= i < |t.generations| && !Occupied(t, i) && i !in t.free
  }

  /** Generations never go back, retired slots stay retired, and an emptied slot ages or retires. */
  ghost predicate Ages(t: Table, t': Table) {
    && t'.id == t.id && |t.generations| <= |t'.generations|
    && (forall i :: 0 <= i < |t.generations| ==> t.generations[i] <= t'.generations[i])
    && (forall i: nat :: Retired(t, i) ==> Retired(t', i) && t'.generations[i] == t.generations[i])
    && (forall i: nat :: Occupied(t, i) && !Occupied(t', i) && 1 <= i < |t'.generations| ==>
          t'.generations[i] > t.generations[i] || Retired(t', i))
  }

  lemma SameAges(t: Table, t': Table)
    requires SameNames(t, t') || SameSlots(t, t')
    ensures Ages(t, t')
  {
    assert forall i: nat :: Occupied(t', i) <==> Occupied(t, i);
  }

  lemma FilledAges(t: Table, t': Table, raw: nat, entry: Entry)
    requires Slots(t) && Filled(t, t', raw, entry)
    ensures Ages(t, t')
  {
    hide FreeList;
    hide Count;
  }

  lemma EmptiedAges(t: Table, t': Table, raw: nat)
    requires Slots(t) && Emptied(t, t', raw)
    ensures Ages(t, t')
  {
    hide FreeList;
    hide Count;
    hide EntryOf;
  }

  lemma AgesTransitive(t: Table, t1: Table, t2: Table)
    requires Slots(t) && Slots(t1) && Slots(t2)
    requires Ages(t, t1) && Ages(t1, t2)
    requires forall i: nat :: Occupied(t1, i) <==> Occupied(t, i)
    ensures Ages(t, t2)
  {
  }

  // ---- Every step keeps the invariant and ages the slots ----

  /** One step of the table within its world. */
  ghost predicate Steps(w: World, w': World) {
    ValidWorld(w') && Ages(w.table, w'.table)
  }

  lemma MakeSteps(w: World, text: Text)
    requires ValidWorld(w) && Enabled(w, Make(text))
    ensures Steps(w, Next(w, Make(text)))
  {
    hide ValidTable;
    SameAges(w.table, w.table);
    assert forall x :: Known(w, x) ==> Known(Next(w, Make(text)), x);
  }

  lemma DropSteps(w: World, cell: nat)
    requires ValidWorld(w) && Enabled(w, Drop(cell))
    ensures Steps(w, Next(w, Drop(cell)))
  {
    hide ValidTable;
    SameAges(w.table, w.table);
    assert forall x :: Known(w, x) <==> Known(Next(w, Drop(cell)), x);
  }

  lemma SameNamesSteps(w: World, t': Table)
    requires ValidWorld(w) && SameNames(w.table, t') && ValidTable(t')
    ensures Steps(w, w.(table := t'))
  {
    hide ValidTable;
    hide Held;
    hide Pooled;
    hide Found;
    SameNamesKeeps(w, t');
    SameAges(w.table, t');
  }

  lemma StaySteps(w: World)
    requires ValidWorld(w)
    ensures Steps(w, w) && w.(table := w.table) == w
  {
    hide ValidWorld;
    SameAges(w.table, w.table);
  }

  lemma RetainSteps(w: World, raw: nat)
    requires ValidWorld(w)
    ensures Steps(w, w.(table := OrSame(RetainIndex(w.table, raw), w.table)))
  {
    hide RetainIndex;
    hide ValidTable;
    hide Held;
    hide Pooled;
    hide Found;
    hide SameNames;
    hide Ages;
    StaySteps(w);
    RetainKeeps(w.table, raw);
    var r := RetainIndex(w.table, raw);
    if r.Ok? {
      SameNamesSteps(w, r.value);
    }
  }

  lemma ReleaseSharedSteps(w: World, raw: nat)
    requires ValidWorld(w)
    ensures Steps(w, w.(table := OrSameFirst(ReleaseIndexShared(w.table, raw), w.table)))
  {
    hide ReleaseIndexShared;
    hide ValidTable;
    hide Held;
    hide Pooled;
    hide Found;
    hide SameNames;
    hide Ages;
    StaySteps(w);
    ReleaseKeeps(w.table, raw);
    var r := ReleaseIndexShared(w.table, raw);
    if r.Ok? {
      SameNamesSteps(w, r.value.0);
    }
  }

  lemma PinSteps(w: World, atom: Atom)
    requires ValidWorld(w)
    ensures Steps(w, w.(table := OrSame(Pin(w.table, atom), w.table)))
  {
    hide Pin;
    hide ValidTable;
    hide Held;
    hide Pooled;
    hide Found;
    hide SameNames;
    hide Ages;
    StaySteps(w);
    PinKeeps(w.table, atom);
    var r := Pin(w.table, atom);
    if r.Ok? {
      SameNamesSteps(w, r.value);
    }
  }

  lemma RemoveSteps(w: World, raw: nat)
    requires ValidWorld(w)
    ensures Steps(w, w.(table := OrSame(RemoveReleasedIndex(w.table, raw, w.alive), w.table)))
  {
    hide RemoveReleasedIndex;
    hide FreeList;
    hide Counters;
    hide Indexes;
    hide Count;
    hide ImmediateAtom;
    hide Held;
    hide Pooled;
    hide Found;
    hide Emptied;
    hide Ages;
    StaySteps(w);
    RemoveKeeps(w, raw);
    var r := RemoveReleasedIndex(w.table, raw, w.alive);
    if r.Ok? && r.value != w.table {
      EmptiedAges(w.table, r.value, raw);
    }
  }

  lemma ReleaseSteps(w: World, raw: nat)
    requires ValidWorld(w)
    ensures Steps(w, w.(table := ReleaseIndex(w.table, raw, w.alive).0))
  {
    hide RemoveReleasedIndex;
    hide ReleaseIndexShared;
    hide FreeList;
    hide Counters;
    hide Indexes;
    hide Count;
    hide ImmediateAtom;
    hide Held;
    hide Pooled;
    hide Found;
    hide Ages;
    StaySteps(w);
    ReleaseSharedSteps(w, raw);
    ReleaseKeeps(w.table, raw);
    var r := ReleaseIndexShared(w.table, raw);
    if r.Ok? && r.value.1 {
      var w1 := w.(table := r.value.0);
      RemoveSteps(w1, raw);
      var r' := RemoveReleasedIndex(r.value.0, raw, w.alive);
      if r'.Ok? {
        assert Steps(w1, w1.(table := r'.value));
        AgesTransitive(w.table, r.value.0, r'.value);
      }
    }
  }

  lemma SweepSteps(w: World)
    requires ValidWorld(w)
    ensures Steps(w, w.(table := Sweep(w.table, w.alive)))
  {
    hide ValidTable;
    hide Held;
    hide Pooled;
    hide Found;
    SweepKeeps(w.table, w.alive);
    PoolKeeps(w, Sweep(w.table, w.alive));
    SameAges(w.table, Sweep(w.table, w.alive));
  }

  lemma SymbolSteps(w: World, kind: Kind, text: Option<Text>, pinned: bool)
    requires ValidWorld(w) && Enabled(w, NewSymbol(kind, text, pinned))
    ensures Steps(w, w.(table := Allocate(w.table, kind, text, pinned).0))
  {
    hide Allocate;
    hide FreeList;
    hide Counters;
    hide Indexes;
    hide Count;
    hide ImmediateAtom;
    hide Held;
    hide Pooled;
    hide Found;
    hide Filled;
    hide Ages;
    StaySteps(w);
    SymbolKeeps(w, kind, text, pinned);
    AllocateFills(w.table, kind, text, pinned);
    var (t', r) := Allocate(w.table, kind, text, pinned);
    if r.Ok? {
      FilledAges(w.table, t', r.value.raw, Entry(kind, text, if pinned then 0 else 1, pinned));
    }
  }

  lemma GlobalSymbolSteps(w: World, key: Text)
    requires ValidWorld(w) && Known(w, key) && key.cell in w.alive
    ensures Steps(w, w.(table := InternGlobalSymbol(w.table, key).0))
  {
    hide Allocate;
    hide FreeList;
    hide Counters;
    hide Indexes;
    hide Count;
    hide ImmediateAtom;
    hide Held;
    hide Pooled;
    hide Found;
    hide Filled;
    hide Ages;
    hide SameNames;
    hide RetainIndex;
    var t := w.table;
    StaySteps(w);
    GlobalSymbolKeeps(w, key);
    if key.units in t.symbols {
      RetainSteps(w, t.symbols[key.units].raw);
    } else {
      AllocateFills(t, GlobalSymbol, Some(key), false);
      var (t1, r) := Allocate(t, GlobalSymbol, Some(key), false);
      if r.Ok? {
        var t2 := InternGlobalSymbol(t, key).0;
        FilledSame(t, t1, t2, r.value.raw, Entry(GlobalSymbol, Some(key), 1, false));
        FilledAges(t, t2, r.value.raw, Entry(GlobalSymbol, Some(key), 1, false));
      }
    }
  }

  lemma FilledFrom(t: Table, t1: Table, t2: Table, raw: nat, entry: Entry)
    requires SameSlots(t, t1) && Filled(t1, t2, raw, entry)
    ensures Filled(t, t2, raw, entry)
  {
    hide Slots;
    hide FreeList;
    hide Count;
    assert forall i: nat :: Occupied(t1, i) <==> Occupied(t, i);
    assert forall i: nat :: Occupied(t, i) ==> EntryOf(t1, i) == EntryOf(t, i) && Brand(t1, i) == Brand(t, i);
  }

  lemma NewStringAges(w: World, text: Text, pinned: bool)
    requires ValidWorld(w)
    ensures Ages(w.table, NewString(w.table, text, pinned, w.alive).0)
  {
    hide Recover;
    hide Allocate;
    hide PurgeBucket;
    hide FreeList;
    hide Counters;
    hide Indexes;
    hide Count;
    hide ImmediateAtom;
    hide Held;
    hide Pooled;
    hide Found;
    hide Filled;
    hide Ages;
    var t := w.table;
    RecoverFinds(w, text.units);
    var (t1, recovered) := Recover(t, text.units, w.alive);
    PoolKeeps(w, t1);
    assert SameSlots(t, t1);
    SameAges(t, t1);
    var cell := if recovered.Some? then recovered.value else text;
    AllocateFills(t1, StringAtom, Some(cell), pinned);
    var (t2, r) := Allocate(t1, StringAtom, Some(cell), pinned);
    if r.Ok? {
      var entry := Entry(StringAtom, Some(cell), if pinned then 0 else 1, pinned);
      var t3 := t2.(strings := t2.strings[cell.units := r.value]);
      PurgeKeeps(t3, cell.units, w.alive, Some(cell.units));
      var t4 := NewString(t, text, pinned, w.alive).0;
      assert SameSlots(t2, t4);
      FilledFrom(t, t1, t2, r.value.raw, entry);
      FilledSame(t, t2, t4, r.value.raw, entry);
      FilledAges(t, t4, r.value.raw, entry);
    }
  }

  lemma InternSteps(w: World, text: Text, pinned: bool)
    requires ValidWorld(w) && Known(w, text) && text.cell in w.alive
    ensures Steps(w, Next(w, Intern(text, pinned)))
  {
    hide Maintain;
    hide NewString;
    hide RetainIndex;
    hide FreeList;
    hide Counters;
    hide Indexes;
    hide Count;
    hide ImmediateAtom;
    hide Held;
    hide Pooled;
    hide Found;
    hide Ages;
    hide Spelled;
    InternStringKeeps(w, text, pinned);
    MaintainKeeps(w.table, w.alive);
    var t0 := Maintain(w.table, w.alive);
    PoolKeeps(w, t0);
    var w0 := w.(table := t0);
    SameAges(w.table, t0);
    var t := InternString(w.table, text, pinned, w.alive).0;
    if ImmediateAtom(text.units).None? {
      if text.units in t0.strings {
        RetainSteps(w0, t0.strings[text.units].raw);
        PinSteps(w0, t0.strings[text.units]);
      } else {
        NewStringAges(w0, text, pinned);
      }
      if t != t0 {
        AgesTransitive(w.table, t0, t);
      }
    }
  }

  lemma NextSteps(w: World, op: Op)
    requires ValidWorld(w) && Enabled(w, op)
    ensures Steps(w, Next(w, op))
  {
    hide ValidWorld;
    hide Steps;
    hide InternString;
    hide InternGlobalSymbol;
    hide Allocate;
    hide RetainIndex;
    hide ReleaseIndex;
    hide ReleaseIndexShared;
    hide RemoveReleasedIndex;
    hide Pin;
    hide Sweep;
    StaySteps(w);
    match op
    case Make(text) => MakeSteps(w, text);
    case Drop(cell) => DropSteps(w, cell);
    case Intern(text, pinned) => InternSteps(w, text, pinned);
    case InternSymbol(text) => GlobalSymbolSteps(w, text);
    case NewSymbol(kind, text, pinned) => SymbolSteps(w, kind, text, pinned);
    case Dup(atom) => RetainSteps(w, atom.raw);
    case DupIndex(raw) => RetainSteps(w, raw);
    case Free(atom) => ReleaseSteps(w, atom.raw);
    case FreeIndex(raw) => ReleaseSteps(w, raw);
    case FreeShared(atom) => ReleaseSharedSteps(w, atom.raw);
    case FreeIndexShared(raw) => ReleaseSharedSteps(w, raw);
    case Remove(atom) => RemoveSteps(w, atom.raw);
    case RemoveIndex(raw) => RemoveSteps(w, raw);
    case PinAtom(atom) => PinSteps(w, atom);
    case SweepPool => SweepSteps(w);
  }

  // ---- Every run ----

  lemma InitialValid(id: nat, hash: Hash)
    ensures ValidWorld(Initial(id, hash))
  {
    var entries: seq<Option<Entry>> := [None];
    assert entries[..0] == [];
  }

  lemma {:induction false} RunValid(w: World, ops: seq<Op>)
    requires ValidWorld(w) && Possible(w, ops)
    ensures ValidWorld(Run(w, ops))
    decreases |ops|
  {
    hide ValidWorld;
    if ops != [] {
      NextValid(w, ops[0]);
      RunValid(Next(w, ops[0]), ops[1..]);
    }
  }

  lemma NextValid(w: World, op: Op)
    requires ValidWorld(w) && Enabled(w, op)
    ensures ValidWorld(Next(w, op)) && Ages(w.table, Next(w, op).table)
  {
    hide ValidWorld;
    hide Next;
    hide Ages;
    NextSteps(w, op);
  }

  /** At every moment of every run, one living cell at most per contents has been the spelling of an atom. */
  lemma CanonicalCellAlways(id: nat, hash: Hash, ops: seq<Op>, a: nat, b: nat)
    requires Possible(Initial(id, hash), ops)
    requires var w := Run(Initial(id, hash), ops);
             && a in w.derived && a in w.alive && b in w.derived && b in w.alive
             && a in w.cells && b in w.cells && w.cells[a] == w.cells[b]
    ensures a == b
  {
    hide ValidWorld;
    InitialValid(id, hash);
    RunValid(Initial(id, hash), ops);
    CanonicalCell(Run(Initial(id, hash), ops), a, b);
  }

  /** A handle whose slot has moved on, or was retired in the handle's own generation. */
  ghost predicate Dead(t: Table, atom: Atom) {
    && atom.table == t.id && !Unstored(atom.raw) && atom.raw < |t.generations|
    && (atom.generation < t.generations[atom.raw] || (atom.generation == t.generations[atom.raw] && Retired(t, atom.raw)))
  }

  lemma DeadStays(t: Table, t': Table, atom: Atom)
    requires Ages(t, t') && Dead(t, atom)
    ensures Dead(t', atom)
  {
  }

  lemma DeadIsNotLive(t: Table, atom: Atom)
    requires Dead(t, atom)
    ensures !IsLive(t, atom)
  {
  }

  lemma LiveOrDead(t: Table, t': Table, atom: Atom)
    requires Slots(t) && Ages(t, t') && Slots(t') && IsLive(t, atom) && !IsLive(t', atom)
    ensures Dead(t', atom)
  {
  }

  lemma {:induction false} DeadForever(w: World, ops: seq<Op>, atom: Atom)
    requires ValidWorld(w) && Possible(w, ops) && Dead(w.table, atom)
    ensures Dead(Run(w, ops).table, atom)
    decreases |ops|
  {
    hide ValidWorld;
    hide Dead;
    hide Ages;
    if ops != [] {
      NextValid(w, ops[0]);
      DeadStays(w.table, Next(w, ops[0]).table, atom);
      DeadForever(Next(w, ops[0]), ops[1..], atom);
    }
  }

  lemma {:induction false} DiesDead(w: World, ops: seq<Op>, atom: Atom)
    requires ValidWorld(w) && Possible(w, ops) && IsLive(w.table, atom) && !IsLive(Run(w, ops).table, atom)
    ensures Dead(Run(w, ops).table, atom)
    decreases |ops|
  {
    hide ValidWorld;
    hide Dead;
    hide Ages;
    hide IsLive;
    if ops != [] {
      NextValid(w, ops[0]);
      if IsLive(Next(w, ops[0]).table, atom) {
        DiesDead(Next(w, ops[0]), ops[1..], atom);
      } else {
        ValidSlots(w);
        ValidSlots(Next(w, ops[0]));
        LiveOrDead(w.table, Next(w, ops[0]).table, atom);
        DeadForever(Next(w, ops[0]), ops[1..], atom);
      }
    }
  }

  lemma ValidSlots(w: World)
    requires ValidWorld(w)
    ensures Slots(w.table)
  {
  }

  lemma {:induction false} RunSplits(w: World, before: seq<Op>, after: seq<Op>)
    requires Possible(w, before + after)
    ensures Possible(w, before) && Possible(Run(w, before), after)
    ensures Run(w, before + after) == Run(Run(w, before), after)
    decreases |before|
  {
    hide Next;
    hide Enabled;
    if before == [] {
      assert before + after == after;
    } else {
      assert (before + after)[0] == before[0] && (before + after)[1..] == before[1..] + after;
      RunSplits(Next(w, before[0]), before[1..], after);
    }
  }

  /** No stale handle ever revives: what was live and is not live now will never be live again. */
  lemma NoRevival(w: World, before: seq<Op>, after: seq<Op>, atom: Atom)
    requires ValidWorld(w) && Possible(w, before + after)
    requires IsLive(w.table, atom) && !IsLive(Run(w, before).table, atom)
    ensures !IsLive(Run(w, before + after).table, atom)
  {
    hide ValidWorld;
    hide IsLive;
    RunSplits(w, before, after);
    DiesDead(w, before, atom);
    RunValid(w, before);
    DeadForever(Run(w, before), after, atom);
    DeadIsNotLive(Run(w, before + after).table, atom);
  }

  // ---- Interning is canonical and reversible ----

  /** Handles of immediate integers carry no brand. */
  predicate Branded(atom: Atom) {
    IsImmediate(atom.raw) ==> atom.generation == 0 && atom.table == 0 && atom.raw <= U32_MAX
  }

  lemma EqualIffSpelledAlike(w: World, a: Atom, b: Atom)
    requires ValidWorld(w) && Branded(a) && Branded(b)
    requires IsLive(w.table, a) && IsLive(w.table, b)
    requires KindOf(w.table, a) == Ok(StringAtom) && KindOf(w.table, b) == Ok(StringAtom)
    ensures a == b <==> Spelling(w.table, a) == Spelling(w.table, b)
  {
    hide Decimal;
    hide FreeList;
    hide Counters;
    hide Count;
    hide Held;
    hide Pooled;
    hide Found;
    if IsImmediate(a.raw) {
      IntegerSpelling(a.raw - ATOM_TAG_INT);
    }
    if IsImmediate(b.raw) {
      IntegerSpelling(b.raw - ATOM_TAG_INT);
    }
  }

  lemma IntegerSpelling(value: nat)
    requires value <= ATOM_MAX_INT
    ensures Parsed(Decimal(value)) == Some(value)
    ensures ImmediateAtom(Decimal(value)) == Some(Atom(ATOM_TAG_INT + value, 0, 0))
  {
    ParsedIffDecimal(Decimal(value), value);
  }

  lemma ImmediateSpelling(units: seq<Unit>)
    requires ImmediateAtom(units).Some?
    ensures var atom := ImmediateAtom(units).value;
            IsImmediate(atom.raw) && units == Decimal(atom.raw - ATOM_TAG_INT)
            && CanonicalArrayIndex(units) == Some(atom.raw - ATOM_TAG_INT)
  {
    ParsedIffDecimal(units, Parsed(units).value);
  }

  /** Where a successfully interned string is found again. */
  lemma InternNames(w: World, text: Text, pinned: bool)
    requires ValidWorld(w) && Known(w, text) && text.cell in w.alive && ImmediateAtom(text.units).None?
    ensures var (t, r) := InternString(w.table, text, pinned, w.alive);
            r.Ok? ==> text.units in t.strings && t.strings[text.units] == r.value
  {
    hide Recover;
    hide Allocate;
    hide PurgeBucket;
    hide FreeList;
    hide Counters;
    hide Indexes;
    hide Count;
    hide ImmediateAtom;
    hide Held;
    hide Found;
    hide Maintain;
    hide RetainIndex;
    MaintainKeeps(w.table, w.alive);
    var t0 := Maintain(w.table, w.alive);
    var w0 := w.(table := t0);
    PoolKeeps(w, t0);
    if text.units in t0.strings {
      RetainKeeps(t0, t0.strings[text.units].raw);
    } else {
      RecoverFinds(w0, text.units);
      var (t1, recovered) := Recover(t0, text.units, w.alive);
      var cell := if recovered.Some? then recovered.value else text;
      var (t2, r) := Allocate(t1, StringAtom, Some(cell), pinned);
      if r.Ok? {
        PurgeKeeps(t2.(strings := t2.strings[cell.units := r.value]), cell.units, w.alive, Some(cell.units));
      }
    }
  }

  /** An interned string reads back as itself, also as an array index. */
  lemma InternReversible(w: World, text: Text, pinned: bool)
    requires ValidWorld(w) && Known(w, text) && text.cell in w.alive
    ensures var (t, r) := InternString(w.table, text, pinned, w.alive);
            r.Ok? ==>
              && IsLive(t, r.value) && KindOf(t, r.value) == Ok(StringAtom)
              && Spelling(t, r.value) == Ok(text.units)
              && ArrayIndex(t, r.value) == Ok(CanonicalArrayIndex(text.units))
  {
    hide InternString;
    hide FreeList;
    hide Counters;
    hide Count;
    hide Held;
    hide Pooled;
    hide Found;
    hide CanonicalArrayIndex;
    InternStringKeeps(w, text, pinned);
    var (t, r) := InternString(w.table, text, pinned, w.alive);
    if ImmediateAtom(text.units).Some? {
      ImmediateSpelling(text.units);
      InternImmediate(w.table, text, pinned, w.alive);
    } else if r.Ok? {
      InternNames(w, text, pinned);
      assert ValidTable(t) by { assert ValidWorld(w.(table := t, derived := w.derived + Spelled(t, r))); }
      assert Names(t, StringAtom, text.units, r.value);
    }
  }

  lemma InternImmediate(t: Table, text: Text, pinned: bool, alive: set<nat>)
    requires ImmediateAtom(text.units).Some?
    ensures InternString(t, text, pinned, alive).1 == Ok(ImmediateAtom(text.units).value)
  {
  }

  /** While an atom-derived string lives, interning its contents again finds that same cell. */
  lemma InternFindsCell(w: World, text: Text, pinned: bool, cell: nat)
    requires ValidWorld(w) && Known(w, text) && text.cell in w.alive && ImmediateAtom(text.units).None?
    requires cell in w.derived && cell in w.alive && Known(w, Text(cell, text.units))
    ensures var (t, r) := InternString(w.table, text, pinned, w.alive);
            r.Ok? ==> Occupied(t, r.value.raw) && EntryOf(t, r.value.raw).text == Some(Text(cell, text.units))
  {
    hide InternString;
    hide FreeList;
    hide Counters;
    hide Count;
    hide ImmediateAtom;
    InternStringKeeps(w, text, pinned);
    InternNames(w, text, pinned);
    var (t, r) := InternString(w.table, text, pinned, w.alive);
    if r.Ok? {
      var w' := w.(table := t, derived := w.derived + Spelled(t, r));
      assert Names(t, StringAtom, text.units, r.value);
      CanonicalCell(w', cell, EntryOf(t, r.value.raw).text.value.cell);
    }
  }

  /** Giving back a reference just taken restores the table. */
  lemma ReleaseUndoesRetain(t: Table, atom: Atom, alive: set<nat>)
    requires ValidHandle(t, atom) && (!EntryOf(t, atom.raw).pinned ==> EntryOf(t, atom.raw).references > 0)
    requires Retain(t, atom).Ok?
    ensures Release(Retain(t, atom).value, atom, alive).0 == t
  {
    var entry := EntryOf(t, atom.raw);
    var t1 := Retain(t, atom).value;
    if !entry.pinned {
      assert t1.entries[atom.raw := Some(entry)] == t.entries;
    }
  }
}
