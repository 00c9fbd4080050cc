/**
 * The atom table as a state machine on values: slots with generations, a free list,
 * the intern maps, and the weak pool of released string cells.
 */
module AtomTables {
  import opened Basics
  import opened Characters
  import opened AtomNames

  datatype Kind = StringAtom | GlobalSymbol | LocalSymbol | PrivateName

  /** A string value: the identity of its cell and its contents. */
  datatype Text = Text(cell: nat, units: seq<Unit>)

  datatype Entry = Entry(kind: Kind, text: Option<Text>, references: nat, pinned: bool)

  datatype Error = NullAtom | UnknownAtom | RefCountOverflow | TableFull

  datatype Outcome = Permanent | Retained(references: nat) | Removed

  type Hash = seq<Unit> -> nat

  datatype Table = Table(
    id: nat,
    hash: Hash,
    entries: seq<Option<Entry>>,
    generations: seq<nat>,
    free: seq<nat>,
    strings: map<seq<Unit>, Atom>,
    pool: map<nat, seq<Text>>,
    budget: nat,
    symbols: map<seq<Unit>, Atom>,
    live: nat
  )

  const CLEANUP_BUDGET := 256

  function New(id: nat, hash: Hash): Table {
    Table(id, hash, [None], [0], [], map[], map[], CLEANUP_BUDGET, map[], 0)
  }

  // ---- Handles ----

  function Brand(t: Table, raw: nat): Atom
    requires raw < |t.generations|
  {
    Atom(raw, t.generations[raw], t.id)
  }

  predicate Occupied(t: Table, raw: nat) {
    raw < |t.generations| && raw < |t.entries| && t.entries[raw].Some?
  }

  /** A branded handle is valid while its slot is occupied in its own generation. */
  predicate ValidHandle(t: Table, atom: Atom) {
    !Unstored(atom.raw) && Occupied(t, atom.raw) && atom == Brand(t, atom.raw)
  }

  predicate IsLive(t: Table, atom: Atom) {
    atom.raw != 0 && (IsImmediate(atom.raw) || ValidHandle(t, atom))
  }

  function EntryOf(t: Table, raw: nat): Entry
    requires Occupied(t, raw)
  {
    t.entries[raw].value
  }

  function SetEntry(t: Table, raw: nat, entry: Entry): Table
    requires Occupied(t, raw)
  {
    t.(entries := t.entries[raw := Some(entry)])
  }

  // ---- Counting references ----

  function RetainIndex(t: Table, raw: nat): Result<Table, Error> {
    if Unstored(raw) then Ok(t)
    else if !Occupied(t, raw) then Err(UnknownAtom)
    else
      var entry := EntryOf(t, raw);
      if entry.pinned then Ok(t)
      else if entry.references >= U32_MAX then Err(RefCountOverflow)
      else Ok(SetEntry(t, raw, entry.(references := entry.references + 1)))
  }

  function Retain(t: Table, atom: Atom): Result<Table, Error> {
    if Unstored(atom.raw) then Ok(t)
    else if !ValidHandle(t, atom) then Err(UnknownAtom)
    else RetainIndex(t, atom.raw)
  }

  /** Gives up one reference; `true` when none is left. */
  function ReleaseIndexShared(t: Table, raw: nat): Result<(Table, bool), Error> {
    if Unstored(raw) then Ok((t, false))
    else if !Occupied(t, raw) then Err(UnknownAtom)
    else
      var entry := EntryOf(t, raw);
      if entry.pinned then Ok((t, false))
      else if entry.references == 0 then Err(UnknownAtom)
      else
        var left := entry.references - 1;
        Ok((SetEntry(t, raw, entry.(references := left)), left == 0))
  }

  function ReleaseShared(t: Table, atom: Atom): Result<(Table, bool), Error> {
    if Unstored(atom.raw) then Ok((t, false))
    else if !ValidHandle(t, atom) then Err(UnknownAtom)
    else ReleaseIndexShared(t, atom.raw)
  }

  function Pin(t: Table, atom: Atom): Result<Table, Error> {
    if Unstored(atom.raw) then Ok(t)
    else if !ValidHandle(t, atom) then Err(UnknownAtom)
    else Ok(SetEntry(t, atom.raw, EntryOf(t, atom.raw).(pinned := true, references := 0)))
  }

  // ---- The pool of released cells ----

  /** Which pooled cells survive a pass: the living ones, but those of an excluded spelling. */
  predicate Kept(text: Text, alive: set<nat>, excluded: Option<seq<Unit>>) {
    text.cell in alive && excluded != Some(text.units)
  }

  function SwapRemove(texts: seq<Text>, i: nat): seq<Text>
    requires i < |texts|
  {
    texts[i := texts[|texts| - 1]][..|texts| - 1]
  }

  /** A pass over a bucket from position `i`; a dropped cell is replaced by the last one. */
  function Purged(texts: seq<Text>, i: nat, alive: set<nat>, excluded: Option<seq<Unit>>): seq<Text>
    decreases |texts| - i
  {
    if i >= |texts| then texts
    else if Kept(texts[i], alive, excluded) then Purged(texts, i + 1, alive, excluded)
    else Purged(SwapRemove(texts, i), i, alive, excluded)
  }

  lemma {:induction false} PurgedKeeps(texts: seq<Text>, i: nat, alive: set<nat>, excluded: Option<seq<Unit>>)
    requires i <= |texts| && forall k :: 0 <= k < i ==> Kept(texts[k], alive, excluded)
    ensures forall x :: x in Purged(texts, i, alive, excluded) <==> x in texts && Kept(x, alive, excluded)
    decreases |texts| - i
  {
    if i < |texts| {
      if Kept(texts[i], alive, excluded) {
        PurgedKeeps(texts, i + 1, alive, excluded);
      } else {
        var removed := SwapRemove(texts, i);
        SwapRemoveKeeps(texts, i);
        PurgedKeeps(removed, i, alive, excluded);
      }
    }
  }

  lemma SwapRemoveKeeps(texts: seq<Text>, i: nat)
    requires i < |texts|
    ensures forall x :: x in texts <==> x == texts[i] || x in SwapRemove(texts, i)
    ensures forall k :: 0 <= k < i < |texts| - 1 ==> SwapRemove(texts, i)[k] == texts[k]
    ensures i == |texts| - 1 ==> SwapRemove(texts, i) == texts[..i]
  {
    var removed := SwapRemove(texts, i);
    forall x | x in texts && x != texts[i]
      ensures x in removed
    {
      var k :| 0 <= k < |texts| && texts[k] == x;
      if k == |texts| - 1 {
        assert removed[i] == x;
      } else {
        assert removed[k] == x;
      }
    }
    forall x | x in removed
      ensures x in texts
    {
      var k :| 0 <= k < |removed| && removed[k] == x;
      assert x == texts[if k == i then |texts| - 1 else k];
    }
  }

  function SetBucket(pool: map<nat, seq<Text>>, key: nat, texts: seq<Text>): map<nat, seq<Text>> {
    if texts == [] then map k | k in pool && k != key :: pool[k] else pool[key := texts]
  }

  function PurgeBucket(t: Table, units: seq<Unit>, alive: set<nat>, excluded: Option<seq<Unit>>): Table {
    var key := t.hash(units);
    if key in t.pool then t.(pool := SetBucket(t.pool, key, Purged(t.pool[key], 0, alive, excluded))) else t
  }

  function FirstSpelled(texts: seq<Text>, units: seq<Unit>): (r: Option<Text>)
    ensures r.Some? ==> r.value in texts && r.value.units == units
    ensures r.None? ==> forall x :: x in texts ==> x.units != units
  {
    if texts == [] then None
    else if texts[0].units == units then Some(texts[0])
    else
      assert forall x :: x in texts <==> x == texts[0] || x in texts[1..];
      FirstSpelled(texts[1..], units)
  }

  /** Drops the dead cells of the spelling's bucket and looks for a living one with that spelling. */
  function Recover(t: Table, units: seq<Unit>, alive: set<nat>): (Table, Option<Text>) {
    var t' := PurgeBucket(t, units, alive, None);
    (t', if t'.hash(units) in t'.pool then FirstSpelled(t'.pool[t'.hash(units)], units) else None)
  }

  function Living(texts: seq<Text>, alive: set<nat>): (r: seq<Text>)
    ensures forall x :: x in r <==> x in texts && x.cell in alive
  {
    if texts == [] then []
    else
      assert forall x :: x in texts <==> x == texts[0] || x in texts[1..];
      (if texts[0].cell in alive then [texts[0]] else []) + Living(texts[1..], alive)
  }

  function Sweep(t: Table, alive: set<nat>): Table {
    t.(budget := CLEANUP_BUDGET,
       pool := map k | k in t.pool && Living(t.pool[k], alive) != [] :: Living(t.pool[k], alive))
  }

  function Maintain(t: Table, alive: set<nat>): Table {
    if t.budget != 0 then t.(budget := t.budget - 1) else Sweep(t, alive)
  }

  // ---- Slots ----

  function Allocate(t: Table, kind: Kind, text: Option<Text>, pinned: bool): (Table, Result<Atom, Error>) {
    if t.free == [] && |t.entries| > ATOM_MAX_TABLE_INDEX then (t, Err(TableFull))
    else
      var raw := if t.free == [] then |t.entries| else t.free[|t.free| - 1];
      var t' := if t.free == [] then t.(entries := t.entries + [None], generations := t.generations + [1])
                else t.(free := t.free[..|t.free| - 1]);
      if raw >= |t'.entries| || raw >= |t'.generations| || t'.entries[raw].Some? then (t', Err(TableFull))
      else
        var entry := Entry(kind, text, if pinned then 0 else 1, pinned);
        (t'.(entries := t'.entries[raw := Some(entry)], live := t'.live + 1), Ok(Brand(t', raw)))
  }

  /** Takes a removed atom out of its intern map; the cell of a string goes to the pool. */
  function Unlisted(t: Table, entry: Entry, alive: set<nat>): Table {
    if entry.text.None? then t
    else
      var text := entry.text.value;
      match entry.kind
      case StringAtom =>
        var key := t.hash(text.units);
        var bucket := if key in t.pool then t.pool[key] else [];
        Maintain(t.(strings := t.strings - {text.units}, pool := t.pool[key := bucket + [text]]), alive)
      case GlobalSymbol => t.(symbols := t.symbols - {text.units})
      case _ => t
  }

  /** Empties a slot; it is free again in its next generation, or retired when its generations are used up. */
  function Vacated(t: Table, raw: nat): Table
    requires Occupied(t, raw)
  {
    var t' := t.(entries := t.entries[raw := None], live := if t.live == 0 then 0 else t.live - 1);
    if t.generations[raw] >= U32_MAX then t'
    else t'.(generations := t.generations[raw := t.generations[raw] + 1], free := t.free + [raw])
  }

  /** Removes an atom that has no references left and was not pinned meanwhile. */
  function RemoveReleasedIndex(t: Table, raw: nat, alive: set<nat>): Result<Table, Error> {
    if Unstored(raw) then Ok(t)
    else if !Occupied(t, raw) then Err(UnknownAtom)
    else
      var entry := EntryOf(t, raw);
      if entry.pinned || entry.references != 0 then Ok(t)
      else
        var t' := Unlisted(t, entry, alive);
        if !Occupied(t', raw) then Err(UnknownAtom) else Ok(Vacated(t', raw))
  }

  function RemoveReleased(t: Table, atom: Atom, alive: set<nat>): Result<Table, Error> {
    if Unstored(atom.raw) then Ok(t)
    else if !ValidHandle(t, atom) then Err(UnknownAtom)
    else RemoveReleasedIndex(t, atom.raw, alive)
  }

  function ReleaseIndex(t: Table, raw: nat, alive: set<nat>): (Table, Result<Outcome, Error>) {
    if Unstored(raw) then (t, Ok(Permanent))
    else
      match ReleaseIndexShared(t, raw)
      case Err(error) => (t, Err(error))
      case Ok((t', last)) =>
        if last then
          match RemoveReleasedIndex(t', raw, alive)
          case Err(error) => (t', Err(error))
          case Ok(t'') => (t'', Ok(Removed))
        else if !Occupied(t', raw) then (t', Err(UnknownAtom))
        else (t', Ok(if EntryOf(t', raw).pinned then Permanent else Retained(EntryOf(t', raw).references)))
  }

  function Release(t: Table, atom: Atom, alive: set<nat>): (Table, Result<Outcome, Error>) {
    if Unstored(atom.raw) then (t, Ok(Permanent))
    else if !ValidHandle(t, atom) then (t, Err(UnknownAtom))
    else ReleaseIndex(t, atom.raw, alive)
  }

  // ---- Interning ----

  /** The part of interning that follows a miss in the intern map. */
  function NewString(t: Table, text: Text, pinned: bool, alive: set<nat>): (Table, Result<Atom, Error>) {
    var (t1, recovered) := Recover(t, text.units, alive);
    var cell := if recovered.Some? then recovered.value else text;
    var (t2, atom) := Allocate(t1, StringAtom, Some(cell), pinned);
    if atom.Err? then (t2, atom)
    else
      var t3 := t2.(strings := t2.strings[cell.units := atom.value]);
      (if recovered.Some? then PurgeBucket(t3, cell.units, alive, Some(cell.units)) else t3, atom)
  }

  /** Interning of a string; the predefined ones are pinned. */
  function InternString(t: Table, text: Text, pinned: bool, alive: set<nat>): (Table, Result<Atom, Error>) {
    var t0 := Maintain(t, alive);
    if ImmediateAtom(text.units).Some? then (t0, Ok(ImmediateAtom(text.units).value))
    else if text.units in t0.strings then
      var atom := t0.strings[text.units];
      var r := if pinned then Pin(t0, atom) else Retain(t0, atom);
      if r.Ok? then (r.value, Ok(atom)) else (t0, Err(r.error))
    else NewString(t0, text, pinned, alive)
  }

  function InternGlobalSymbol(t: Table, key: Text): (Table, Result<Atom, Error>) {
    if key.units in t.symbols then
      var atom := t.symbols[key.units];
      var r := Retain(t, atom);
      if r.Ok? then (r.value, Ok(atom)) else (t, Err(r.error))
    else
      var (t', atom) := Allocate(t, GlobalSymbol, Some(key), false);
      if atom.Err? then (t', atom) else (t'.(symbols := t'.symbols[key.units := atom.value]), atom)
  }

  // ---- Reading ----

  function Spelling(t: Table, atom: Atom): Result<seq<Unit>, Error> {
    if atom.raw == 0 then Err(NullAtom)
    else if IsImmediate(atom.raw) then Ok(Decimal(atom.raw - ATOM_TAG_INT))
    else if !ValidHandle(t, atom) then Err(UnknownAtom)
    else
      var text := EntryOf(t, atom.raw).text;
      Ok(if text.Some? then text.value.units else [])
  }

  function KindOf(t: Table, atom: Atom): Result<Kind, Error> {
    if atom.raw == 0 then Err(NullAtom)
    else if IsImmediate(atom.raw) then Ok(StringAtom)
    else if !ValidHandle(t, atom) then Err(UnknownAtom)
    else Ok(EntryOf(t, atom.raw).kind)
  }

  function ArrayIndex(t: Table, atom: Atom): Result<Option<nat>, Error> {
    if atom.raw == 0 then Err(NullAtom)
    else if IsImmediate(atom.raw) then Ok(Some(atom.raw - ATOM_TAG_INT))
    else if !ValidHandle(t, atom) then Err(UnknownAtom)
    else
      var entry := EntryOf(t, atom.raw);
      if !entry.kind.StringAtom? || entry.text.None? then Ok(None)
      else Ok(CanonicalArrayIndex(entry.text.value.units))
  }
}
