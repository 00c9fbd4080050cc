/** Who holds an atom: over every run the references of a slot are the handles given out and not given back. */
module AtomAccounts {
  import opened Basics
  import opened AtomNames
  import opened AtomTables
  import opened AtomInvariants
  import opened AtomRuns

  // ---- What an operation hands over ----

  function Granted(r: Result<Atom, Error>): Option<Atom> {
    if r.Ok? then Some(r.value) else None
  }

  function HandleAt(t: Table, raw: nat): Option<Atom> {
    if !Unstored(raw) && Occupied(t, raw) then Some(Brand(t, raw)) else None
  }

  /** The handle that the caller has one more of, if the operation succeeds. */
  function Given(w: World, op: Op): Option<Atom> {
    var t := w.table;
    match op
    case Intern(text, pinned) => Granted(InternString(t, text, pinned, w.alive).1)
    case InternSymbol(text) => Granted(InternGlobalSymbol(t, text).1)
    case NewSymbol(kind, text, pinned) => Granted(Allocate(t, kind, text, pinned).1)
    case Dup(atom) => if Retain(t, atom).Ok? then Some(atom) else None
    case DupIndex(raw) => if RetainIndex(t, raw).Ok? then HandleAt(t, raw) else None
    case _ => None
  }

  /** The handle that the caller has one less of, if the operation succeeds. */
  function Returned(w: World, op: Op): Option<Atom> {
    var t := w.table;
    match op
    case Free(atom) => if Release(t, atom, w.alive).1.Ok? then Some(atom) else None
    case FreeIndex(raw) => if ReleaseIndex(t, raw, w.alive).1.Ok? then HandleAt(t, raw) else None
    case FreeShared(atom) => if ReleaseShared(t, atom).Ok? then Some(atom) else None
    case FreeIndexShared(raw) => if ReleaseIndexShared(t, raw).Ok? then HandleAt(t, raw) else None
    case _ => None
  }

  function Change(w: World, op: Op, atom: Atom): int {
    (if Given(w, op) == Some(atom) then 1 else 0) - (if Returned(w, op) == Some(atom) then 1 else 0)
  }

  /** How many of a handle are out at the end of a run. */
  function Balance(w: World, ops: seq<Op>, atom: Atom): int
    decreases |ops|
  {
    if ops == [] then 0 else Change(w, ops[0], atom) + Balance(Next(w, ops[0]), ops[1..], atom)
  }

  // ---- The account of one handle ----

  predicate Pinned(t: Table, atom: Atom) {
    ValidHandle(t, atom) && EntryOf(t, atom.raw).pinned
  }

  /** A slot that is not pinned has as many references as its handle is out, and a handle that is not live is not out. */
  predicate Even(t: Table, atom: Atom, out: int) {
    && (ValidHandle(t, atom) && !EntryOf(t, atom.raw).pinned ==> EntryOf(t, atom.raw).references == out)
    && (!ValidHandle(t, atom) ==> out == 0)
  }

  function One(yes: bool): int {
    if yes then 1 else 0
  }

  lemma SameSlotsEven(t: Table, t': Table, atom: Atom, out: int)
    requires SameSlots(t, t') && Even(t, atom, out)
    ensures Even(t', atom, out) && (Pinned(t, atom) ==> Pinned(t', atom))
  {
    assert Occupied(t', atom.raw) <==> Occupied(t, atom.raw);
  }

  lemma RetainEven(t: Table, raw: nat, atom: Atom, out: int)
    requires !Unstored(atom.raw) && Even(t, atom, out)
    ensures var r := RetainIndex(t, raw);
            r.Ok? ==> Even(r.value, atom, out + One(HandleAt(t, raw) == Some(atom))) && (Pinned(t, atom) ==> Pinned(r.value, atom))
  {
  }

  lemma ReleaseSharedEven(t: Table, raw: nat, atom: Atom, out: int)
    requires !Unstored(atom.raw) && Even(t, atom, out)
    ensures var r := ReleaseIndexShared(t, raw);
            r.Ok? ==>
              && Even(r.value.0, atom, out - One(HandleAt(t, raw) == Some(atom)))
              && (Pinned(t, atom) ==> Pinned(r.value.0, atom))
  {
  }

  lemma PinEven(t: Table, pin: Atom, atom: Atom, out: int, given: int)
    requires !Unstored(atom.raw) && Even(t, atom, out) && (given != 0 ==> pin == atom)
    ensures var r := Pin(t, pin);
            r.Ok? ==> Even(r.value, atom, out + given) && (Pinned(t, atom) ==> Pinned(r.value, atom))
  {
  }

  lemma FilledEven(t: Table, t': Table, raw: nat, entry: Entry, atom: Atom, out: int)
    requires !Unstored(atom.raw) && Even(t, atom, out) && Filled(t, t', raw, entry)
    requires entry.pinned || entry.references == 1
    ensures Even(t', atom, out + One(atom == Brand(t', raw))) && (Pinned(t, atom) ==> Pinned(t', atom))
  {
    hide Slots;
    hide FreeList;
    hide Count;
  }

  lemma EmptiedEven(t: Table, t': Table, raw: nat, atom: Atom, out: int)
    requires !Unstored(atom.raw) && Even(t, atom, out) && Emptied(t, t', raw)
    requires !EntryOf(t, raw).pinned && EntryOf(t, raw).references == 0
    ensures Even(t', atom, out) && (Pinned(t, atom) ==> Pinned(t', atom))
  {
    hide Slots;
    hide FreeList;
    hide Count;
  }

  lemma RemoveEven(w: World, raw: nat, atom: Atom, out: int)
    requires ValidWorld(w) && !Unstored(atom.raw) && Even(w.table, atom, out)
    ensures var r := RemoveReleasedIndex(w.table, raw, w.alive);
            r.Ok? ==> Even(r.value, atom, out) && (Pinned(w.table, atom) ==> Pinned(r.value, atom))
  {
    hide ValidWorld;
    hide Emptied;
    hide Unlisted;
    hide Vacated;
    hide Even;
    hide Pinned;
    RemoveKeeps(w, raw);
    var r := RemoveReleasedIndex(w.table, raw, w.alive);
    if r.Ok? && r.value != w.table {
      EmptiedEven(w.table, r.value, raw, atom, out);
    }
  }

  lemma ReleaseEven(w: World, raw: nat, atom: Atom, out: int)
    requires ValidWorld(w) && !Unstored(atom.raw) && Even(w.table, atom, out)
    ensures var (t', r) := ReleaseIndex(w.table, raw, w.alive);
            && Even(t', atom, out - One(r.Ok? && HandleAt(w.table, raw) == Some(atom)))
            && (Pinned(w.table, atom) ==> Pinned(t', atom))
  {
    hide ValidWorld;
    hide RemoveReleasedIndex;
    hide ReleaseIndexShared;
    hide Even;
    hide Pinned;
    ReleaseSharedEven(w.table, raw, atom, out);
    ReleaseSharedSteps(w, raw);
    SharedKeepsSlot(w.table, raw);
    var r := ReleaseIndexShared(w.table, raw);
    if r.Ok? && r.value.1 {
      var w1 := w.(table := r.value.0);
      RemoveEven(w1, raw, atom, out - One(HandleAt(w.table, raw) == Some(atom)));
      RemoveKeeps(w1, raw);
    }
  }

  lemma SharedKeepsSlot(t: Table, raw: nat)
    ensures var r := ReleaseIndexShared(t, raw); r.Ok? && !Unstored(raw) ==> Occupied(t, raw) && Occupied(r.value.0, raw)
  {
  }

  lemma AllocateEven(t: Table, kind: Kind, text: Option<Text>, pinned: bool, atom: Atom, out: int)
    requires ValidTable(t) && !Unstored(atom.raw) && Even(t, atom, out)
    ensures var (t', r) := Allocate(t, kind, text, pinned);
            Even(t', atom, out + One(Granted(r) == Some(atom))) && (Pinned(t, atom) ==> Pinned(t', atom))
  {
    hide Allocate;
    hide ValidTable;
    hide Filled;
    hide Even;
    hide Pinned;
    AllocateFills(t, kind, text, pinned);
    var (t', r) := Allocate(t, kind, text, pinned);
    if r.Ok? {
      FilledEven(t, t', r.value.raw, Entry(kind, text, if pinned then 0 else 1, pinned), atom, out);
    }
  }

  lemma SymbolEven(w: World, key: Text, atom: Atom, out: int)
    requires ValidWorld(w) && !Unstored(atom.raw) && Even(w.table, atom, out)
    ensures var (t', r) := InternGlobalSymbol(w.table, key);
            Even(t', atom, out + One(Granted(r) == Some(atom))) && (Pinned(w.table, atom) ==> Pinned(t', atom))
  {
    hide Allocate;
    hide Slots;
    hide FreeList;
    hide Counters;
    hide Count;
    hide Held;
    hide Pooled;
    hide Found;
    hide Even;
    hide Pinned;
    hide RetainIndex;
    var t := w.table;
    if key.units in t.symbols {
      var known := t.symbols[key.units];
      assert Names(t, GlobalSymbol, key.units, known);
      RetainEven(t, known.raw, atom, out);
    } else {
      AllocateEven(t, GlobalSymbol, Some(key), false, atom, out);
      var t1 := Allocate(t, GlobalSymbol, Some(key), false).0;
      var t2 := InternGlobalSymbol(t, key).0;
      SameSlotsEven(t1, t2, atom, out + One(Granted(InternGlobalSymbol(t, key).1) == Some(atom)));
    }
  }

  lemma NewStringEven(w: World, text: Text, pinned: bool, atom: Atom, out: int)
    requires ValidWorld(w) && !Unstored(atom.raw) && Even(w.table, atom, out)
    ensures var (t', r) := NewString(w.table, text, pinned, w.alive);
            Even(t', atom, out + One(Granted(r) == Some(atom))) && (Pinned(w.table, atom) ==> Pinned(t', atom))
  {
    hide Recover;
    hide Allocate;
    hide PurgeBucket;
    hide ValidTable;
    hide Held;
    hide Pooled;
    hide Found;
    hide Even;
    hide Pinned;
    RecoverFinds(w, text.units);
    var (t1, recovered) := Recover(w.table, text.units, w.alive);
    PoolKeeps(w, t1);
    SameSlotsEven(w.table, t1, atom, out);
    var cell := if recovered.Some? then recovered.value else text;
    AllocateEven(t1, StringAtom, Some(cell), pinned, atom, out);
    var (t2, r) := Allocate(t1, StringAtom, Some(cell), pinned);
    if r.Ok? {
      var t3 := t2.(strings := t2.strings[cell.units := r.value]);
      PurgeKeeps(t3, cell.units, w.alive, Some(cell.units));
      SameSlotsEven(t2, NewString(w.table, text, pinned, w.alive).0, atom, out + One(Granted(r) == Some(atom)));
    }
  }

  lemma InternEven(w: World, text: Text, pinned: bool, atom: Atom, out: int)
    requires ValidWorld(w) && !Unstored(atom.raw) && Even(w.table, atom, out)
    ensures var (t', r) := InternString(w.table, text, pinned, w.alive);
            Even(t', atom, out + One(Granted(r) == Some(atom))) && (Pinned(w.table, atom) ==> Pinned(t', atom))
  {
    hide Maintain;
    hide NewString;
    hide RetainIndex;
    hide Pin;
    hide Slots;
    hide FreeList;
    hide Counters;
    hide Count;
    hide ImmediateAtom;
    hide Held;
    hide Pooled;
    hide Found;
    hide Even;
    hide Pinned;
    MaintainKeeps(w.table, w.alive);
    var t0 := Maintain(w.table, w.alive);
    PoolKeeps(w, t0);
    SameSlotsEven(w.table, t0, atom, out);
    if ImmediateAtom(text.units).Some? {
      ImmediateSpelling(text.units);
    } else if text.units in t0.strings {
      var known := t0.strings[text.units];
      assert Names(t0, StringAtom, text.units, known);
      RetainEven(t0, known.raw, atom, out);
      PinEven(t0, known, atom, out, One(known == atom));
    } else {
      NewStringEven(w.(table := t0), text, pinned, atom, out);
    }
  }

  // ---- Every step, every run ----

  lemma NextEven(w: World, op: Op, atom: Atom, out: int)
    requires ValidWorld(w) && Enabled(w, op) && !Unstored(atom.raw) && Even(w.table, atom, out)
    ensures Even(Next(w, op).table, atom, out + Change(w, op, atom))
    ensures Pinned(w.table, atom) ==> Pinned(Next(w, op).table, atom)
  {
    hide ValidWorld;
    hide InternString;
    hide InternGlobalSymbol;
    hide Allocate;
    hide RetainIndex;
    hide ReleaseIndex;
    hide ReleaseIndexShared;
    hide RemoveReleasedIndex;
    hide Pin;
    hide Sweep;
    hide Even;
    hide Pinned;
    var t := w.table;
    match op
    case Intern(text, pinned) => InternEven(w, text, pinned, atom, out);
    case InternSymbol(text) => SymbolEven(w, text, atom, out);
    case NewSymbol(kind, text, pinned) =>
      ValidOne(w);
      AllocateEven(t, kind, text, pinned, atom, out);
    case Dup(a) => RetainEven(t, a.raw, atom, out);
    case DupIndex(raw) => RetainEven(t, raw, atom, out);
    case Free(a) => ReleaseEven(w, a.raw, atom, out);
    case FreeIndex(raw) => ReleaseEven(w, raw, atom, out);
    case FreeShared(a) => ReleaseSharedEven(t, a.raw, atom, out);
    case FreeIndexShared(raw) => ReleaseSharedEven(t, raw, atom, out);
    case Remove(a) => RemoveEven(w, a.raw, atom, out);
    case RemoveIndex(raw) => RemoveEven(w, raw, atom, out);
    case PinAtom(a) => PinEven(t, a, atom, out, 0);
    case SweepPool =>
      SweepKeeps(t, w.alive);
      SameSlotsEven(t, Sweep(t, w.alive), atom, out);
    case _ =>
  }

  lemma ValidOne(w: World)
    requires ValidWorld(w)
    ensures ValidTable(w.table)
  {
  }

  lemma {:induction false} RunEven(w: World, ops: seq<Op>, atom: Atom, out: int)
    requires ValidWorld(w) && Possible(w, ops) && !Unstored(atom.raw) && Even(w.table, atom, out)
    ensures Even(Run(w, ops).table, atom, out + Balance(w, ops, atom))
    ensures Pinned(w.table, atom) ==> Pinned(Run(w, ops).table, atom)
    decreases |ops|
  {
    hide ValidWorld;
    hide Even;
    hide Pinned;
    hide Change;
    hide Next;
    hide Enabled;
    if ops != [] {
      NextEven(w, ops[0], atom, out);
      NextValid(w, ops[0]);
      RunEven(Next(w, ops[0]), ops[1..], atom, out + Change(w, ops[0], atom));
    }
  }

  /**
   At every moment of every run a handle that is out is live, and a slot that is not pinned has exactly as many
   references as its handle is out: none is lost and none is invented.
   */
  lemma ReferencesAreOwners(id: nat, hash: Hash, ops: seq<Op>, atom: Atom)
    requires Possible(Initial(id, hash), ops) && !Unstored(atom.raw)
    ensures var t, out := Run(Initial(id, hash), ops).table, Balance(Initial(id, hash), ops, atom);
            && (out > 0 ==> IsLive(t, atom))
            && (IsLive(t, atom) && !EntryOf(t, atom.raw).pinned ==> EntryOf(t, atom.raw).references == out)
            && (!IsLive(t, atom) ==> out == 0)
  {
    hide ValidWorld;
    InitialValid(id, hash);
    RunEven(Initial(id, hash), ops, atom, 0);
  }

  /** A pinned atom is live for ever. */
  lemma PinnedForever(w: World, ops: seq<Op>, atom: Atom)
    requires ValidWorld(w) && Possible(w, ops) && Pinned(w.table, atom)
    ensures Pinned(Run(w, ops).table, atom) && IsLive(Run(w, ops).table, atom)
  {
    hide ValidWorld;
    RunEven(w, ops, atom, 0);
  }

  /** What is asked to be pinned is pinned. */
  lemma PinsWhenAsked(w: World, op: Op, atom: Atom)
    requires ValidWorld(w) && Enabled(w, op) && !Unstored(atom.raw)
    requires op.PinAtom? && op.atom == atom ==> IsLive(w.table, atom)
    requires || (op.Intern? && op.pinned && Given(w, op) == Some(atom))
             || (op.NewSymbol? && op.pinned && Given(w, op) == Some(atom))
             || (op.PinAtom? && op.atom == atom)
    ensures Pinned(Next(w, op).table, atom)
  {
    hide Recover;
    hide Allocate;
    hide PurgeBucket;
    hide Maintain;
    hide Slots;
    hide FreeList;
    hide Counters;
    hide Count;
    hide ImmediateAtom;
    hide Held;
    hide Pooled;
    hide Found;
    var t := w.table;
    if op.NewSymbol? {
      AllocateFills(t, op.kind, op.description, true);
    } else if op.Intern? {
      MaintainKeeps(t, w.alive);
      var t0 := Maintain(t, w.alive);
      PoolKeeps(w, t0);
      if op.text.units !in t0.strings {
        PinsNewString(w.(table := t0), op.text);
      } else {
        assert Names(t0, StringAtom, op.text.units, t0.strings[op.text.units]);
      }
    }
  }

  lemma PinsNewString(w: World, text: Text)
    requires ValidWorld(w)
    ensures var (t', r) := NewString(w.table, text, true, w.alive); r.Ok? && !Unstored(r.value.raw) ==> Pinned(t', r.value)
  {
    hide Recover;
    hide Allocate;
    hide PurgeBucket;
    hide ValidTable;
    hide Held;
    hide Pooled;
    hide Found;
    RecoverFinds(w, text.units);
    var (t1, recovered) := Recover(w.table, text.units, w.alive);
    PoolKeeps(w, t1);
    var cell := if recovered.Some? then recovered.value else text;
    AllocateFills(t1, StringAtom, Some(cell), true);
    var (t2, r) := Allocate(t1, StringAtom, Some(cell), true);
    if r.Ok? {
      PurgeKeeps(t2.(strings := t2.strings[cell.units := r.value]), cell.units, w.alive, Some(cell.units));
    }
  }

  /** The answer to giving a handle back says how many are still out. */
  lemma ReleaseAnswers(id: nat, hash: Hash, ops: seq<Op>, atom: Atom)
    requires Possible(Initial(id, hash), ops) && !Unstored(atom.raw) && IsLive(Run(Initial(id, hash), ops).table, atom)
    ensures var w, out := Run(Initial(id, hash), ops), Balance(Initial(id, hash), ops, atom);
            var (t', r) := Release(w.table, atom, w.alive);
            if EntryOf(w.table, atom.raw).pinned then r == Ok(Permanent) && t' == w.table
            else if out == 0 then r == Err(UnknownAtom) && t' == w.table
            else if out == 1 then r == Ok(Removed) && !IsLive(t', atom)
            else out > 1 && r == Ok(Retained(out - 1)) && IsLive(t', atom)
  {
    hide ValidWorld;
    hide RemoveReleasedIndex;
    var w := Run(Initial(id, hash), ops);
    InitialValid(id, hash);
    RunValid(Initial(id, hash), ops);
    ReferencesAreOwners(id, hash, ops, atom);
    if !EntryOf(w.table, atom.raw).pinned && EntryOf(w.table, atom.raw).references == 1 {
      var t1 := ReleaseIndexShared(w.table, atom.raw).value.0;
      ReleaseSharedSteps(w, atom.raw);
      RemoveKeeps(w.(table := t1), atom.raw);
      LastRemoved(t1, atom.raw, w.alive);
    }
  }

  lemma LastRemoved(t: Table, raw: nat, alive: set<nat>)
    requires !Unstored(raw) && Occupied(t, raw) && !EntryOf(t, raw).pinned && EntryOf(t, raw).references == 0
    ensures var r := RemoveReleasedIndex(t, raw, alive); r.Ok? ==> !Occupied(r.value, raw)
  {
    hide Maintain;
  }
}
