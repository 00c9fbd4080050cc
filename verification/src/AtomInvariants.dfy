/** What every operation of the atom table keeps. */
module AtomInvariants {
  import opened Basics
  import opened Characters
  import opened AtomNames
  import opened AtomTables

  // ---- The table on its own ----

  ghost predicate Slots(t: Table) {
    && 1 <= |t.entries| == |t.generations| <= ATOM_MAX_TABLE_INDEX + 1
    && t.entries[0].None?
    && forall i :: 1 <= i < |t.generations| ==> 1 <= t.generations[i] <= U32_MAX
  }

  /** The free list is duplicate-free and holds vacant slots; a vacant slot outside it is used up. */
  ghost predicate FreeList(t: Table) {
    && (forall k :: 0 <= k < |t.free| ==> 1 <= t.free[k] < |t.entries| && !Occupied(t, t.free[k]))
    && (forall j, k :: 0 <= j < k < |t.free| ==> t.free[j] != t.free[k])
    && (forall i :: 1 <= i < |t.generations| && !Occupied(t, i) && i !in t.free ==> t.generations[i] == U32_MAX)
  }

  /** An intern map names exactly the atoms of its kind, each by its spelling. */
  ghost predicate Indexes(t: Table, kind: Kind, index: map<seq<Unit>, Atom>) {
    && (forall u :: u in index ==> Names(t, kind, u, index[u]))
    && (forall i: nat :: Occupied(t, i) && EntryOf(t, i).kind == kind ==>
          var text := EntryOf(t, i).text;
          text.Some? && text.value.units in index && index[text.value.units].raw == i)
  }

  ghost predicate Names(t: Table, kind: Kind, units: seq<Unit>, atom: Atom) {
    && ValidHandle(t, atom)
    && EntryOf(t, atom.raw).kind == kind
    && EntryOf(t, atom.raw).text.Some?
    && EntryOf(t, atom.raw).text.value.units == units
  }

  ghost predicate Counters(t: Table) {
    forall i: nat :: Occupied(t, i) ==>
      EntryOf(t, i).references <= U32_MAX && (EntryOf(t, i).pinned ==> EntryOf(t, i).references == 0)
  }

  function Count(entries: seq<Option<Entry>>): nat {
    if entries == [] then 0
    else Count(entries[..|entries| - 1]) + if entries[|entries| - 1].Some? then 1 else 0
  }

  ghost predicate ValidTable(t: Table) {
    && Slots(t) && FreeList(t) && Counters(t)
    && Indexes(t, StringAtom, t.strings) && Indexes(t, GlobalSymbol, t.symbols)
    && (forall u :: u in t.strings ==> ImmediateAtom(u).None?)
    && t.live == Count(t.entries)
  }

  // ---- The table among its strings ----

  /**
   * A table together with the strings of its runtime: the contents of every cell ever made,
   * the cells alive now, and every cell that has been the spelling of a string atom.
   */
  datatype World = World(table: Table, cells: map<nat, seq<Unit>>, alive: set<nat>, derived: set<nat>)

  ghost predicate Known(w: World, text: Text) {
    text.cell in w.cells && w.cells[text.cell] == text.units
  }

  ghost predicate InPool(t: Table, text: Text) {
    t.hash(text.units) in t.pool && text in t.pool[t.hash(text.units)]
  }

  /** The cell is the spelling of a string atom. */
  ghost predicate InTable(t: Table, text: Text) {
    text.units in t.strings && Names(t, StringAtom, text.units, t.strings[text.units])
    && EntryOf(t, t.strings[text.units].raw).text.value == text
  }

  ghost predicate Held(w: World) {
    && w.alive <= w.cells.Keys && w.derived <= w.cells.Keys
    && forall i: nat :: Occupied(w.table, i) && EntryOf(w.table, i).text.Some? ==>
         var text := EntryOf(w.table, i).text.value;
         Known(w, text) && text.cell in w.alive && (EntryOf(w.table, i).kind.StringAtom? ==> text.cell in w.derived)
  }

  ghost predicate Pooled(w: World) {
    && (forall k, x :: k in w.table.pool && x in w.table.pool[k] ==>
          w.table.hash(x.units) == k && Known(w, x) && x.cell in w.derived)
    && (forall x :: InPool(w.table, x) && x.cell in w.alive ==> x.units !in w.table.strings)
    && (forall x, y :: InPool(w.table, x) && InPool(w.table, y) && x.cell in w.alive && y.cell in w.alive ==>
          x.units == y.units ==> x == y)
  }

  /** A living cell that was ever the spelling of an atom is still found. */
  ghost predicate Found(w: World) {
    forall c :: c in w.derived && c in w.alive && c in w.cells ==>
      var text := Text(c, w.cells[c]);
      InPool(w.table, text) || InTable(w.table, text)
  }

  ghost predicate ValidWorld(w: World) {
    ValidTable(w.table) && Held(w) && Pooled(w) && Found(w)
  }

  /** At most one living cell for any contents has ever been the spelling of an atom. */
  lemma CanonicalCell(w: World, a: nat, b: nat)
    requires ValidWorld(w)
    requires a in w.derived && a in w.alive && b in w.derived && b in w.alive
    requires a in w.cells && b in w.cells && w.cells[a] == w.cells[b]
    ensures a == b
  {
    var x, y := Text(a, w.cells[a]), Text(b, w.cells[b]);
    assert InPool(w.table, x) || InTable(w.table, x);
    assert InPool(w.table, y) || InTable(w.table, y);
  }

  // ---- Counting occupied slots ----

  lemma {:induction false} CountSet(entries: seq<Option<Entry>>, i: nat, entry: Option<Entry>)
    requires i < |entries|
    ensures Count(entries[i := entry])
         == Count(entries) - (if entries[i].Some? then 1 else 0) + (if entry.Some? then 1 else 0)
    ensures entries[i].Some? ==> Count(entries) > 0
    decreases |entries|
  {
    var last := |entries| - 1;
    if i == last {
      assert entries[i := entry][..last] == entries[..last];
    } else {
      CountSet(entries[..last], i, entry);
      assert entries[i := entry][..last] == entries[..last][i := entry];
    }
  }

  // ---- Changing counters ----

  /** Only the counters and the pin of one entry change. */
  lemma SetCounters(t: Table, raw: nat, entry: Entry)
    requires ValidTable(t) && Occupied(t, raw)
    requires entry.kind == EntryOf(t, raw).kind && entry.text == EntryOf(t, raw).text
    requires entry.references <= U32_MAX && (entry.pinned ==> entry.references == 0)
    ensures ValidTable(SetEntry(t, raw, entry))
    ensures forall i: nat :: Occupied(SetEntry(t, raw, entry), i) <==> Occupied(t, i)
    ensures forall i: nat :: Occupied(t, i) ==>
      && EntryOf(SetEntry(t, raw, entry), i).kind == EntryOf(t, i).kind
      && EntryOf(SetEntry(t, raw, entry), i).text == EntryOf(t, i).text
  {
    hide Count;
    hide ImmediateAtom;
    var t' := SetEntry(t, raw, entry);
    CountSet(t.entries, raw, Some(entry));
    assert forall i: nat :: Occupied(t', i) <==> Occupied(t, i);
    assert forall i: nat :: Occupied(t, i) ==> EntryOf(t', i).kind == EntryOf(t, i).kind && EntryOf(t', i).text == EntryOf(t, i).text;
    forall u | u in t.strings
      ensures Names(t', StringAtom, u, t.strings[u])
    {
      assert Names(t, StringAtom, u, t.strings[u]);
    }
    forall u | u in t.symbols
      ensures Names(t', GlobalSymbol, u, t.symbols[u])
    {
      assert Names(t, GlobalSymbol, u, t.symbols[u]);
    }
  }

  /** The same atoms under the same names, with the same pool. */
  ghost predicate SameNames(t: Table, t': Table) {
    && t' == t.(entries := t'.entries)
    && (forall i: nat :: Occupied(t', i) <==> Occupied(t, i))
    && (forall i: nat :: Occupied(t, i) ==>
          EntryOf(t', i).kind == EntryOf(t, i).kind && EntryOf(t', i).text == EntryOf(t, i).text)
  }

  lemma SameNamesKeeps(w: World, t': Table)
    requires ValidWorld(w) && SameNames(w.table, t') && ValidTable(t')
    ensures ValidWorld(w.(table := t'))
  {
    var w' := w.(table := t');
    forall x | InTable(w.table, x)
      ensures InTable(t', x)
    {
      assert Names(t', StringAtom, x.units, t'.strings[x.units]);
    }
    forall x
      ensures InPool(t', x) <==> InPool(w.table, x)
    {
    }
  }

  lemma RetainKeeps(t: Table, raw: nat)
    requires ValidTable(t)
    ensures var r := RetainIndex(t, raw); r.Ok? ==> ValidTable(r.value) && SameNames(t, r.value)
  {
    hide ValidTable;
    if !Unstored(raw) && Occupied(t, raw) {
      var entry := EntryOf(t, raw);
      if !entry.pinned && entry.references < U32_MAX {
        SetCounters(t, raw, entry.(references := entry.references + 1));
      }
    }
  }

  lemma ReleaseKeeps(t: Table, raw: nat)
    requires ValidTable(t)
    ensures var r := ReleaseIndexShared(t, raw); r.Ok? ==> ValidTable(r.value.0) && SameNames(t, r.value.0)
  {
    hide Indexes;
    hide FreeList;
    hide Slots;
    hide Count;
    if !Unstored(raw) && Occupied(t, raw) {
      var entry := EntryOf(t, raw);
      if !entry.pinned && entry.references > 0 {
        SetCounters(t, raw, entry.(references := entry.references - 1));
      }
    }
  }

  lemma PinKeeps(t: Table, atom: Atom)
    requires ValidTable(t)
    ensures var r := Pin(t, atom); r.Ok? ==> ValidTable(r.value) && SameNames(t, r.value)
  {
    hide ValidTable;
    if !Unstored(atom.raw) && ValidHandle(t, atom) {
      SetCounters(t, atom.raw, EntryOf(t, atom.raw).(pinned := true, references := 0));
    }
  }

  // ---- Changing the pool ----

  /** Only the pool changes, and every living cell stays in it. */
  ghost predicate PoolKept(t: Table, t': Table, alive: set<nat>) {
    && t' == t.(pool := t'.pool, budget := t'.budget)
    && (forall k, x :: k in t'.pool && x in t'.pool[k] ==> k in t.pool && x in t.pool[k])
    && (forall x :: InPool(t, x) && x.cell in alive ==> InPool(t', x))
  }

  lemma PoolKeeps(w: World, t': Table)
    requires ValidWorld(w) && PoolKept(w.table, t', w.alive)
    ensures ValidWorld(w.(table := t'))
  {
    hide Count;
    hide ImmediateAtom;
    hide Slots;
    hide FreeList;
    hide Indexes;
    hide Counters;
    var w' := w.(table := t');
    assert forall i: nat :: Occupied(t', i) <==> Occupied(w.table, i);
    assert ValidTable(t') by { PoolIrrelevant(w.table, t'); }
    forall x | InTable(w.table, x)
      ensures InTable(t', x)
    {
      assert Names(t', StringAtom, x.units, t'.strings[x.units]);
    }
  }

  lemma PoolIrrelevant(t: Table, t': Table)
    requires ValidTable(t) && t' == t.(pool := t'.pool, budget := t'.budget)
    ensures ValidTable(t')
  {
    assert forall i: nat :: Occupied(t', i) <==> Occupied(t, i);
    assert forall i: nat :: Occupied(t, i) ==> EntryOf(t', i) == EntryOf(t, i);
    forall u | u in t.strings
      ensures Names(t', StringAtom, u, t.strings[u])
    {
      assert Names(t, StringAtom, u, t.strings[u]);
    }
    forall u | u in t.symbols
      ensures Names(t', GlobalSymbol, u, t.symbols[u])
    {
      assert Names(t, GlobalSymbol, u, t.symbols[u]);
    }
  }

  lemma MaintainKeeps(t: Table, alive: set<nat>)
    ensures PoolKept(t, Maintain(t, alive), alive)
  {
    SweepKeeps(t, alive);
  }

  lemma SweepKeeps(t: Table, alive: set<nat>)
    ensures PoolKept(t, Sweep(t, alive), alive)
  {
    hide Living;
    var t' := Sweep(t, alive);
    forall x | InPool(t, x) && x.cell in alive
      ensures InPool(t', x)
    {
      var k := t.hash(x.units);
      assert x in Living(t.pool[k], alive);
      assert Living(t.pool[k], alive) != [];
    }
  }

  lemma PurgeKeeps(t: Table, units: seq<Unit>, alive: set<nat>, excluded: Option<seq<Unit>>)
    ensures var t' := PurgeBucket(t, units, alive, excluded);
            && t' == t.(pool := t'.pool)
            && (forall k, x :: k in t'.pool && x in t'.pool[k] ==> k in t.pool && x in t.pool[k])
            && (forall k, x :: k in t'.pool && k == t.hash(units) && x in t'.pool[k] ==> Kept(x, alive, excluded))
            && (forall x :: InPool(t, x) && Kept(x, alive, excluded) ==> InPool(t', x))
            && (forall x :: InPool(t', x) ==> InPool(t, x))
  {
    hide Purged;
    hide Kept;
    var key := t.hash(units);
    if key in t.pool {
      PurgedKeeps(t.pool[key], 0, alive, excluded);
    }
  }

  /** What recovery finds: the living pooled cell with the spelling, when there is one. */
  lemma RecoverFinds(w: World, units: seq<Unit>)
    requires ValidWorld(w)
    ensures var (t', recovered) := Recover(w.table, units, w.alive);
            && PoolKept(w.table, t', w.alive)
            && (recovered.Some? ==> InPool(t', recovered.value) && recovered.value.cell in w.alive
                                    && recovered.value.units == units)
            && (recovered.None? ==> forall x :: InPool(t', x) && x.cell in w.alive ==> x.units != units)
  {
    hide PurgeBucket;
    hide ValidTable;
    hide Held;
    hide Found;
    PurgeKeeps(w.table, units, w.alive, None);
    var t' := PurgeBucket(w.table, units, w.alive, None);
    assert forall x: Text :: x.cell in w.alive ==> Kept(x, w.alive, None);
    assert forall x: Text :: Kept(x, w.alive, None) ==> x.cell in w.alive;
  }

  // ---- Filling and emptying slots ----

  /** One slot becomes occupied; nothing else about slots changes. */
  ghost predicate Filled(t: Table, t': Table, raw: nat, entry: Entry) {
    && t'.id == t.id && t'.hash == t.hash
    && Slots(t') && FreeList(t') && t'.live == Count(t'.entries)
    && 1 <= raw < |t'.generations| && !Occupied(t, raw) && Occupied(t', raw) && EntryOf(t', raw) == entry
    && (raw in t.free || raw == |t.generations|)
    && (forall i: nat :: i != raw ==> (Occupied(t', i) <==> Occupied(t, i)))
    && (forall i: nat :: Occupied(t, i) ==> Occupied(t', i) && EntryOf(t', i) == EntryOf(t, i) && Brand(t', i) == Brand(t, i))
    && |t.generations| <= |t'.generations| && (forall i :: 0 <= i < |t.generations| ==> t'.generations[i] == t.generations[i])
    && (forall i :: 0 <= i < |t.generations| && i !in t.free ==> i !in t'.free)
  }

  function Appended(t: Table, entry: Entry): Table {
    t.(entries := t.entries + [Some(entry)], generations := t.generations + [1], live := t.live + 1)
  }

  function Reused(t: Table, entry: Entry): Table
    requires t.free != [] && t.free[|t.free| - 1] < |t.entries|
  {
    var raw := t.free[|t.free| - 1];
    t.(entries := t.entries[raw := Some(entry)], free := t.free[..|t.free| - 1], live := t.live + 1)
  }

  lemma AppendFills(t: Table, entry: Entry)
    requires Slots(t) && FreeList(t) && t.live == Count(t.entries) && t.free == [] && |t.entries| <= ATOM_MAX_TABLE_INDEX
    ensures Filled(t, Appended(t, entry), |t.entries|, entry)
  {
    var t' := Appended(t, entry);
    assert t'.entries[..|t.entries|] == t.entries;
    assert forall i: nat :: i < |t.entries| ==> (Occupied(t', i) <==> Occupied(t, i));
  }

  lemma ReuseFills(t: Table, entry: Entry)
    requires Slots(t) && FreeList(t) && t.live == Count(t.entries) && t.free != []
    ensures Filled(t, Reused(t, entry), t.free[|t.free| - 1], entry)
  {
    hide Count;
    var raw := t.free[|t.free| - 1];
    var t' := Reused(t, entry);
    CountSet(t.entries, raw, Some(entry));
    assert forall i: nat :: i != raw ==> (Occupied(t', i) <==> Occupied(t, i));
    assert forall i :: i in t'.free ==> i in t.free;
    assert forall i :: i in t.free && i != raw ==> i in t'.free;
  }

  lemma AllocateFills(t: Table, kind: Kind, text: Option<Text>, pinned: bool)
    requires ValidTable(t)
    ensures var (t', r) := Allocate(t, kind, text, pinned);
            if r.Err? then t' == t
            else
              && t' == t.(entries := t'.entries, generations := t'.generations, free := t'.free, live := t'.live)
              && Filled(t, t', r.value.raw, Entry(kind, text, if pinned then 0 else 1, pinned))
              && r.value == Brand(t', r.value.raw)
  {
    hide Indexes;
    hide Counters;
    hide Filled;
    hide Count;
    var entry := Entry(kind, text, if pinned then 0 else 1, pinned);
    if t.free != [] {
      ReuseFills(t, entry);
    } else if |t.entries| <= ATOM_MAX_TABLE_INDEX {
      AppendFills(t, entry);
      assert (t.entries + [None])[|t.entries| := Some(entry)] == t.entries + [Some(entry)];
    }
  }

  function Added(index: map<seq<Unit>, Atom>, units: seq<Unit>, atom: Atom): map<seq<Unit>, Atom> {
    index[units := atom]
  }

  lemma IndexOther(t: Table, t': Table, raw: nat, entry: Entry, kind: Kind, index: map<seq<Unit>, Atom>)
    requires Indexes(t, kind, index) && Filled(t, t', raw, entry) && entry.kind != kind
    ensures Indexes(t', kind, index)
  {
    hide Slots;
    hide FreeList;
    forall u | u in index
      ensures Names(t', kind, u, index[u])
    {
      assert Names(t, kind, u, index[u]);
      assert Occupied(t, index[u].raw);
    }
  }

  lemma IndexAdded(t: Table, t': Table, raw: nat, entry: Entry, index: map<seq<Unit>, Atom>)
    requires Indexes(t, entry.kind, index) && Filled(t, t', raw, entry) && |t'.generations| <= ATOM_MAX_TABLE_INDEX + 1
    requires entry.text.Some? && entry.text.value.units !in index
    ensures Indexes(t', entry.kind, Added(index, entry.text.value.units, Brand(t', raw)))
  {
    hide Slots;
    hide FreeList;
    var index' := Added(index, entry.text.value.units, Brand(t', raw));
    forall u | u in index'
      ensures Names(t', entry.kind, u, index'[u])
    {
      if u != entry.text.value.units {
        assert Names(t, entry.kind, u, index[u]);
        assert Occupied(t, index[u].raw);
      }
    }
  }

  lemma CountersFilled(t: Table, t': Table, raw: nat, entry: Entry)
    requires Counters(t) && Filled(t, t', raw, entry)
    requires entry.references <= U32_MAX && (entry.pinned ==> entry.references == 0)
    ensures Counters(t')
  {
    hide Slots;
    hide FreeList;
    assert forall i: nat :: Occupied(t', i) && i != raw ==> Occupied(t, i);
  }

  /** Only the intern maps, the pool and the budget differ. */
  ghost predicate SameSlots(t: Table, t': Table) {
    t' == t.(strings := t'.strings, symbols := t'.symbols, pool := t'.pool, budget := t'.budget)
  }

  lemma SameSlotsIndexes(t: Table, t': Table, kind: Kind, index: map<seq<Unit>, Atom>)
    requires SameSlots(t, t') && Indexes(t, kind, index)
    ensures Indexes(t', kind, index)
  {
    assert forall i: nat :: Occupied(t', i) <==> Occupied(t, i);
    assert forall i: nat :: Occupied(t, i) ==> EntryOf(t', i) == EntryOf(t, i);
    forall u | u in index
      ensures Names(t', kind, u, index[u])
    {
      assert Names(t, kind, u, index[u]);
    }
  }

  lemma SameSlotsRest(t: Table, t': Table)
    requires SameSlots(t, t') && Slots(t) && FreeList(t) && Counters(t) && t.live == Count(t.entries)
    ensures Slots(t') && FreeList(t') && Counters(t') && t'.live == Count(t'.entries)
  {
    hide Count;
    assert forall i: nat :: Occupied(t', i) <==> Occupied(t, i);
    assert forall i: nat :: Occupied(t, i) ==> EntryOf(t', i) == EntryOf(t, i);
  }

  // ---- New atoms ----

  lemma FilledSpellings(t: Table, t': Table, raw: nat, entry: Entry, x: Text)
    requires Filled(t, t', raw, entry) && InTable(t, x)
    requires x.units in t'.strings && t'.strings[x.units] == t.strings[x.units]
    ensures InTable(t', x)
  {
    hide Slots;
    hide FreeList;
    assert Occupied(t, t.strings[x.units].raw);
  }

  lemma HeldFilled(w: World, w': World, raw: nat, entry: Entry)
    requires Held(w) && Filled(w.table, w'.table, raw, entry)
    requires w'.cells == w.cells && w'.alive == w.alive && w.derived <= w'.derived <= w.cells.Keys
    requires entry.text.Some? ==> Known(w, entry.text.value) && entry.text.value.cell in w.alive
    requires entry.text.Some? && entry.kind.StringAtom? ==> entry.text.value.cell in w'.derived
    ensures Held(w')
  {
    hide Slots;
    hide FreeList;
    assert forall i: nat :: Occupied(w'.table, i) && i != raw ==> Occupied(w.table, i);
  }

  lemma SymbolKeeps(w: World, kind: Kind, text: Option<Text>, pinned: bool)
    requires ValidWorld(w) && (kind.LocalSymbol? || kind.PrivateName?)
    requires text.Some? ==> Known(w, text.value) && text.value.cell in w.alive
    ensures ValidWorld(w.(table := Allocate(w.table, kind, text, pinned).0))
  {
    hide Allocate;
    hide Count;
    hide Slots;
    hide FreeList;
    hide Indexes;
    hide Counters;
    hide ImmediateAtom;
    AllocateFills(w.table, kind, text, pinned);
    var (t', r) := Allocate(w.table, kind, text, pinned);
    if r.Ok? {
      var entry := Entry(kind, text, if pinned then 0 else 1, pinned);
      NewSymbolTable(w.table, t', r.value.raw, entry);
      HeldFilled(w, w.(table := t'), r.value.raw, entry);
      forall x | InTable(w.table, x)
        ensures InTable(t', x)
      {
        FilledSpellings(w.table, t', r.value.raw, entry, x);
      }
    }
  }

  lemma NewSymbolTable(t: Table, t': Table, raw: nat, entry: Entry)
    requires ValidTable(t) && Filled(t, t', raw, entry) && !entry.kind.StringAtom? && !entry.kind.GlobalSymbol?
    requires t'.strings == t.strings && t'.symbols == t.symbols
    requires entry.references <= U32_MAX && (entry.pinned ==> entry.references == 0)
    ensures ValidTable(t')
  {
    hide Slots;
    hide FreeList;
    hide Indexes;
    hide Counters;
    hide ImmediateAtom;
    IndexOther(t, t', raw, entry, StringAtom, t.strings);
    IndexOther(t, t', raw, entry, GlobalSymbol, t.symbols);
    CountersFilled(t, t', raw, entry);
  }

  /** A table after a new interned atom: its slot filled and its name added. */
  lemma NewNameTable(t: Table, t1: Table, t2: Table, raw: nat, entry: Entry)
    requires ValidTable(t) && Filled(t, t1, raw, entry) && entry.text.Some?
    requires t1.strings == t.strings && t1.symbols == t.symbols && SameSlots(t1, t2)
    requires entry.references <= U32_MAX && (entry.pinned ==> entry.references == 0)
    requires entry.kind.StringAtom? ==>
      && entry.text.value.units !in t.strings && ImmediateAtom(entry.text.value.units).None?
      && t2.strings == Added(t.strings, entry.text.value.units, Brand(t1, raw)) && t2.symbols == t.symbols
    requires entry.kind.GlobalSymbol? ==>
      && entry.text.value.units !in t.symbols
      && t2.symbols == Added(t.symbols, entry.text.value.units, Brand(t1, raw)) && t2.strings == t.strings
    requires entry.kind.StringAtom? || entry.kind.GlobalSymbol?
    ensures ValidTable(t2)
  {
    hide FreeList;
    hide Indexes;
    hide Counters;
    hide ImmediateAtom;
    hide Count;
    CountersFilled(t, t1, raw, entry);
    if entry.kind.StringAtom? {
      IndexAdded(t, t1, raw, entry, t.strings);
      IndexOther(t, t1, raw, entry, GlobalSymbol, t.symbols);
    } else {
      IndexAdded(t, t1, raw, entry, t.symbols);
      IndexOther(t, t1, raw, entry, StringAtom, t.strings);
    }
    SameSlotsIndexes(t1, t2, StringAtom, t2.strings);
    SameSlotsIndexes(t1, t2, GlobalSymbol, t2.symbols);
    SameSlotsRest(t1, t2);
  }

  lemma GlobalSymbolKeeps(w: World, key: Text)
    requires ValidWorld(w) && Known(w, key) && key.cell in w.alive
    ensures ValidWorld(w.(table := InternGlobalSymbol(w.table, key).0))
  {
    hide Allocate;
    hide Count;
    hide Slots;
    hide FreeList;
    hide Counters;
    hide ImmediateAtom;
    hide RetainIndex;
    var t := w.table;
    if key.units in t.symbols {
      RetainKeeps(t, t.symbols[key.units].raw);
      var r := Retain(t, t.symbols[key.units]);
      if r.Ok? {
        SameNamesKeeps(w, r.value);
      }
    } else {
      AllocateFills(t, GlobalSymbol, Some(key), false);
      var (t1, r) := Allocate(t, GlobalSymbol, Some(key), false);
      if r.Ok? {
        var entry := Entry(GlobalSymbol, Some(key), 1, false);
        var t2 := t1.(symbols := t1.symbols[key.units := r.value]);
        NewNameTable(t, t1, t2, r.value.raw, entry);
        NamedWorld(w, t1, t2, r.value.raw, entry);
      }
    }
  }

  lemma NamedWorld(w: World, t1: Table, t2: Table, raw: nat, entry: Entry)
    requires ValidWorld(w) && Filled(w.table, t1, raw, entry) && SameSlots(t1, t2) && ValidTable(t2)
    requires entry.kind.GlobalSymbol? && entry.text.Some?
    requires Known(w, entry.text.value) && entry.text.value.cell in w.alive
    requires t2.strings == w.table.strings && t2.pool == w.table.pool
    ensures ValidWorld(w.(table := t2))
  {
    hide Slots;
    hide FreeList;
    hide Indexes;
    hide Counters;
    hide ImmediateAtom;
    hide Count;
    assert Filled(w.table, t2, raw, entry) by { FilledSame(w.table, t1, t2, raw, entry); }
    HeldFilled(w, w.(table := t2), raw, entry);
    forall x | InTable(w.table, x)
      ensures InTable(t2, x)
    {
      FilledSpellings(w.table, t2, raw, entry, x);
    }
  }

  lemma FilledSame(t: Table, t1: Table, t2: Table, raw: nat, entry: Entry)
    requires Filled(t, t1, raw, entry) && SameSlots(t1, t2)
    ensures Filled(t, t2, raw, entry)
  {
    hide Count;
    assert forall i: nat :: Occupied(t2, i) <==> Occupied(t1, i);
    assert forall i: nat :: Occupied(t1, i) ==> EntryOf(t2, i) == EntryOf(t1, i) && Brand(t2, i) == Brand(t1, i);
  }

  // ---- New strings ----

  /** The cells that a successful interning made the spelling of its atom. */
  function Spelled(t: Table, r: Result<Atom, Error>): set<nat> {
    if r.Ok? && Occupied(t, r.value.raw) && EntryOf(t, r.value.raw).text.Some?
    then {EntryOf(t, r.value.raw).text.value.cell} else {}
  }

  /** The state after a new string atom: its cell in the table and no longer in the pool. */
  ghost predicate StringAdded(w: World, t1: Table, t2: Table, raw: nat, cell: Text, pinned: bool) {
    && Filled(w.table, t1, raw, Entry(StringAtom, Some(cell), if pinned then 0 else 1, pinned))
    && SameSlots(t1, t2) && t1.symbols == w.table.symbols && t1.strings == w.table.strings
    && t2.strings == Added(w.table.strings, cell.units, Brand(t1, raw)) && t2.symbols == w.table.symbols
    && cell.units !in w.table.strings && ImmediateAtom(cell.units).None?
    && Known(w, cell) && cell.cell in w.alive
    && (forall k, x :: k in t2.pool && x in t2.pool[k] ==> k in w.table.pool && x in w.table.pool[k])
    && (forall x :: InPool(t2, x) && x.cell in w.alive ==> x.units != cell.units)
    && (forall x :: InPool(w.table, x) && x.cell in w.alive ==> if x.units == cell.units then x == cell else InPool(t2, x))
  }

  lemma AddedStringKeeps(w: World, t1: Table, t2: Table, raw: nat, cell: Text, pinned: bool)
    requires ValidWorld(w) && StringAdded(w, t1, t2, raw, cell, pinned)
    ensures ValidWorld(w.(table := t2, derived := w.derived + {cell.cell}))
  {
    hide Slots;
    hide FreeList;
    hide Indexes;
    hide Counters;
    hide ImmediateAtom;
    hide Count;
    hide InTable;
    var entry := Entry(StringAtom, Some(cell), if pinned then 0 else 1, pinned);
    var w' := w.(table := t2, derived := w.derived + {cell.cell});
    NewNameTable(w.table, t1, t2, raw, entry);
    FilledSame(w.table, t1, t2, raw, entry);
    HeldFilled(w, w', raw, entry);
    CellInTable(w.table, t1, t2, raw, cell, pinned);
    forall x | InTable(w.table, x)
      ensures InTable(t2, x)
    {
      assert x.units in w.table.strings by { UnfoldInTable(w.table, x); }
      FilledSpellings(w.table, t2, raw, entry, x);
    }
    assert Found(w');
  }

  lemma UnfoldInTable(t: Table, x: Text)
    requires InTable(t, x)
    ensures x.units in t.strings
  {
  }

  lemma CellInTable(t: Table, t1: Table, t2: Table, raw: nat, cell: Text, pinned: bool)
    requires Filled(t, t1, raw, Entry(StringAtom, Some(cell), if pinned then 0 else 1, pinned)) && SameSlots(t1, t2)
    requires cell.units in t2.strings && t2.strings[cell.units] == Brand(t1, raw)
    ensures InTable(t2, cell)
  {
    assert Occupied(t2, raw);
  }

  lemma ForgetKeeps(t: Table, units: seq<Unit>, alive: set<nat>)
    ensures var t' := PurgeBucket(t, units, alive, Some(units));
            && t' == t.(pool := t'.pool)
            && (forall k, x :: k in t'.pool && x in t'.pool[k] ==> k in t.pool && x in t.pool[k])
            && (forall x :: InPool(t', x) ==> x.units != units)
            && (forall x :: InPool(t, x) && x.cell in alive && x.units != units ==> InPool(t', x))
  {
    hide PurgeBucket;
    PurgeKeeps(t, units, alive, Some(units));
    var t' := PurgeBucket(t, units, alive, Some(units));
    forall x | InPool(t', x)
      ensures x.units != units
    {
      assert x.units == units ==> Kept(x, alive, Some(units));
    }
    forall x | InPool(t, x) && x.cell in alive && x.units != units
      ensures InPool(t', x)
    {
      assert Kept(x, alive, Some(units));
    }
  }

  /** After recovery the pool holds no other living cell of the spelling; forgetting drops that one too. */
  lemma JoinsTable(w: World, t: Table, t': Table, r: Result<Atom, Error>, recovered: Option<Text>, cell: Text, pinned: bool)
    requires ValidWorld(w) && r.Ok? && Known(w, cell) && cell.cell in w.alive
    requires ImmediateAtom(cell.units).None? && cell.units !in w.table.strings
    requires Filled(w.table, t, r.value.raw, Entry(StringAtom, Some(cell), if pinned then 0 else 1, pinned))
    requires r.value == Brand(t, r.value.raw)
    requires t == w.table.(entries := t.entries, generations := t.generations, free := t.free, live := t.live)
    requires if recovered.Some? then recovered.value == cell && InPool(w.table, cell)
             else forall x :: InPool(w.table, x) && x.cell in w.alive ==> x.units != cell.units
    requires var named := t.(strings := t.strings[cell.units := r.value]);
             t' == if recovered.Some? then PurgeBucket(named, cell.units, w.alive, Some(cell.units)) else named
    ensures StringAdded(w, t, t', r.value.raw, cell, pinned)
  {
    hide PurgeBucket;
    hide ValidTable;
    hide Found;
    hide Held;
    hide Filled;
    hide ImmediateAtom;
    var named := t.(strings := t.strings[cell.units := r.value]);
    ForgetKeeps(named, cell.units, w.alive);
    assert forall x :: InPool(named, x) <==> InPool(w.table, x);
  }

  lemma InternNewString(w: World, text: Text, pinned: bool)
    requires ValidWorld(w) && Known(w, text) && text.cell in w.alive
    requires ImmediateAtom(text.units).None? && text.units !in w.table.strings
    ensures var (t, r) := NewString(w.table, text, pinned, w.alive);
            ValidWorld(w.(table := t, derived := w.derived + Spelled(t, r)))
  {
    hide Recover;
    hide Allocate;
    hide PurgeBucket;
    hide ValidTable;
    hide Found;
    hide Held;
    hide Filled;
    hide ImmediateAtom;
    hide PoolKept;
    hide StringAdded;
    hide Spelled;
    RecoverFinds(w, text.units);
    var (t1, recovered) := Recover(w.table, text.units, w.alive);
    PoolKeptStrings(w.table, t1, w.alive);
    PoolKeeps(w, t1);
    var w1 := w.(table := t1);
    var cell := if recovered.Some? then recovered.value else text;
    assert Known(w1, cell);
    assert ValidTable(t1);
    AllocateFills(t1, StringAtom, Some(cell), pinned);
    var (t2, r) := Allocate(t1, StringAtom, Some(cell), pinned);
    var t4 := NewString(w.table, text, pinned, w.alive).0;
    if r.Ok? {
      JoinsTable(w1, t2, t4, r, recovered, cell, pinned);
      AddedStringKeeps(w1, t2, t4, r.value.raw, cell, pinned);
      SpelledCell(w1, t2, t4, r, cell, pinned);
    } else {
      assert Spelled(t2, r) == {} by { NotSpelled(t2, r); }
      assert w.derived + {} == w.derived;
    }
  }

  lemma NotSpelled(t: Table, r: Result<Atom, Error>)
    requires r.Err?
    ensures Spelled(t, r) == {}
  {
  }

  lemma PoolKeptStrings(t: Table, t': Table, alive: set<nat>)
    requires PoolKept(t, t', alive)
    ensures t'.strings == t.strings && t'.symbols == t.symbols && t'.hash == t.hash
  {
  }

  lemma SpelledCell(w: World, t1: Table, t2: Table, r: Result<Atom, Error>, cell: Text, pinned: bool)
    requires r.Ok? && StringAdded(w, t1, t2, r.value.raw, cell, pinned)
    ensures Spelled(t2, r) == {cell.cell}
  {
    assert Occupied(t2, r.value.raw);
  }

  lemma InternStringKeeps(w: World, text: Text, pinned: bool)
    requires ValidWorld(w) && Known(w, text) && text.cell in w.alive
    ensures var (t, r) := InternString(w.table, text, pinned, w.alive);
            ValidWorld(w.(table := t, derived := w.derived + Spelled(t, r)))
  {
    hide Maintain;
    hide NewString;
    hide RetainIndex;
    hide ImmediateAtom;
    hide Slots;
    hide FreeList;
    hide Counters;
    hide Found;
    hide Pooled;
    hide Count;
    MaintainKeeps(w.table, w.alive);
    var t0 := Maintain(w.table, w.alive);
    PoolKeeps(w, t0);
    var w0 := w.(table := t0);
    var (t, r) := InternString(w.table, text, pinned, w.alive);
    if ImmediateAtom(text.units).Some? {
      ImmediateNotStored(w0, r);
      assert w.derived + {} == w.derived;
    } else if text.units in t0.strings {
      var atom := t0.strings[text.units];
      RetainKeeps(t0, atom.raw);
      PinKeeps(t0, atom);
      if r.Ok? {
        SameNamesKeeps(w0, t);
        assert Occupied(t, atom.raw) && EntryOf(t, atom.raw).kind.StringAtom?;
        assert w.derived + Spelled(t, r) == w.derived;
      } else {
        assert w.derived + {} == w.derived;
      }
    } else {
      InternNewString(w0, text, pinned);
    }
  }

  lemma ImmediateNotStored(w: World, r: Result<Atom, Error>)
    requires ValidWorld(w) && r.Ok? && IsImmediate(r.value.raw)
    ensures Spelled(w.table, r) == {}
  {
  }

  // ---- Removing atoms ----

  /** One slot becomes vacant: its generation moves on and it is free again, or it is retired for good. */
  ghost predicate Emptied(t: Table, t': Table, raw: nat) {
    && t'.id == t.id && t'.hash == t.hash
    && Slots(t') && FreeList(t') && t'.live == Count(t'.entries)
    && !Unstored(raw) && Occupied(t, raw) && !Occupied(t', raw)
    && (forall i: nat :: i != raw ==> (Occupied(t', i) <==> Occupied(t, i)))
    && (forall i: nat :: Occupied(t', i) ==> EntryOf(t', i) == EntryOf(t, i) && Brand(t', i) == Brand(t, i))
    && |t'.generations| == |t.generations|
    && (forall i :: 0 <= i < |t.generations| && i != raw ==> t'.generations[i] == t.generations[i])
    && (forall i :: 0 <= i < |t.generations| && i != raw && i !in t.free ==> i !in t'.free)
    && (if t.generations[raw] < U32_MAX then t'.generations[raw] == t.generations[raw] + 1
        else t'.generations[raw] == U32_MAX && raw !in t'.free)
  }

  lemma VacatedEmpties(t: Table, raw: nat)
    requires ValidTable(t) && !Unstored(raw) && Occupied(t, raw)
    ensures Emptied(t, Vacated(t, raw), raw)
  {
    hide Indexes;
    hide Counters;
    hide Count;
    hide ImmediateAtom;
    CountSet(t.entries, raw, None);
    var t' := Vacated(t, raw);
    assert forall i: nat :: i != raw ==> (Occupied(t', i) <==> Occupied(t, i));
    assert raw !in t.free;
    assert forall i :: i in t'.free ==> i == raw || i in t.free;
    assert forall i :: i in t.free ==> i in t'.free;
    assert t.generations[raw] < U32_MAX ==> raw == t'.free[|t.free|];
  }

  lemma IndexKept(t: Table, t': Table, raw: nat, kind: Kind, index: map<seq<Unit>, Atom>)
    requires Indexes(t, kind, index) && Emptied(t, t', raw) && EntryOf(t, raw).kind != kind
    ensures Indexes(t', kind, index)
  {
    hide Slots;
    hide FreeList;
    hide Count;
    forall u | u in index
      ensures Names(t', kind, u, index[u])
    {
      assert Names(t, kind, u, index[u]);
      assert Occupied(t', index[u].raw);
    }
  }

  lemma IndexDropped(t: Table, t': Table, raw: nat, index: map<seq<Unit>, Atom>)
    requires Emptied(t, t', raw) && Indexes(t, EntryOf(t, raw).kind, index) && EntryOf(t, raw).text.Some?
    ensures Indexes(t', EntryOf(t, raw).kind, index - {EntryOf(t, raw).text.value.units})
  {
    hide Slots;
    hide FreeList;
    hide Count;
    var kind, units := EntryOf(t, raw).kind, EntryOf(t, raw).text.value.units;
    var index' := index - {units};
    forall u | u in index'
      ensures Names(t', kind, u, index'[u])
    {
      assert Names(t, kind, u, index[u]);
      assert index[u].raw != raw;
      assert Occupied(t', index[u].raw);
    }
    forall i: nat | Occupied(t', i) && EntryOf(t', i).kind == kind
      ensures var text := EntryOf(t', i).text;
              text.Some? && text.value.units in index' && index'[text.value.units].raw == i
    {
      assert Occupied(t, i);
    }
  }

  lemma EmptiedTable(t: Table, t1: Table, t2: Table, raw: nat)
    requires ValidTable(t) && Emptied(t, t1, raw) && SameSlots(t1, t2)
    requires var entry := EntryOf(t, raw);
             && t2.strings == (if entry.kind.StringAtom? && entry.text.Some? then t.strings - {entry.text.value.units} else t.strings)
             && t2.symbols == (if entry.kind.GlobalSymbol? && entry.text.Some? then t.symbols - {entry.text.value.units} else t.symbols)
    ensures ValidTable(t2)
  {
    hide FreeList;
    hide Indexes;
    hide Counters;
    hide ImmediateAtom;
    hide Count;
    CountersEmptied(t, t1, raw);
    SpellingPresent(t, raw);
    if EntryOf(t, raw).kind.StringAtom? {
      IndexDropped(t, t1, raw, t.strings);
    } else {
      IndexKept(t, t1, raw, StringAtom, t.strings);
    }
    if EntryOf(t, raw).kind.GlobalSymbol? {
      IndexDropped(t, t1, raw, t.symbols);
    } else {
      IndexKept(t, t1, raw, GlobalSymbol, t.symbols);
    }
    SameSlotsIndexes(t1, t2, StringAtom, t2.strings);
    SameSlotsIndexes(t1, t2, GlobalSymbol, t2.symbols);
    SameSlotsRest(t1, t2);
  }

  lemma SpellingPresent(t: Table, raw: nat)
    requires ValidTable(t) && Occupied(t, raw)
    ensures EntryOf(t, raw).kind.StringAtom? || EntryOf(t, raw).kind.GlobalSymbol? ==> EntryOf(t, raw).text.Some?
    ensures EntryOf(t, raw).kind.StringAtom? ==>
      && EntryOf(t, raw).text.value.units in t.strings
      && t.strings[EntryOf(t, raw).text.value.units].raw == raw
  {
    hide FreeList;
    hide Slots;
    hide Counters;
    hide ImmediateAtom;
    hide Count;
  }

  lemma CountersEmptied(t: Table, t': Table, raw: nat)
    requires Counters(t) && Emptied(t, t', raw)
    ensures Counters(t')
  {
    hide Slots;
    hide FreeList;
    hide Count;
    assert forall i: nat :: Occupied(t', i) ==> Occupied(t, i);
  }

  /** The pool and the names after a removal. */
  ghost predicate Withdrawn(w: World, t': Table, raw: nat) {
    && Occupied(w.table, raw) && t'.hash == w.table.hash
    && var entry := EntryOf(w.table, raw);
       if entry.kind.StringAtom? && entry.text.Some? then
         && t'.strings == w.table.strings - {entry.text.value.units}
         && (forall k, x :: k in t'.pool && x in t'.pool[k] ==>
               (k in w.table.pool && x in w.table.pool[k]) || (k == t'.hash(x.units) && x == entry.text.value))
         && (forall x :: InPool(w.table, x) && x.cell in w.alive ==> InPool(t', x))
         && InPool(t', entry.text.value)
       else t'.strings == w.table.strings && t'.pool == w.table.pool
  }

  lemma EmptiedSpellings(t: Table, t': Table, raw: nat, x: Text)
    requires ValidTable(t) && Emptied(t, t', raw) && InTable(t, x)
    requires x.units in t.strings && t.strings[x.units].raw != raw
    requires x.units in t'.strings && t'.strings[x.units] == t.strings[x.units]
    ensures InTable(t', x)
  {
    hide Slots;
    hide FreeList;
    hide Indexes;
    hide Counters;
    hide ImmediateAtom;
    hide Count;
    assert Occupied(t', t.strings[x.units].raw);
  }

  lemma HeldEmptied(w: World, t': Table, raw: nat)
    requires Held(w) && Emptied(w.table, t', raw)
    ensures Held(w.(table := t'))
  {
    hide Slots;
    hide FreeList;
    hide Count;
    assert forall i: nat :: Occupied(t', i) ==> Occupied(w.table, i);
  }

  lemma PooledWithdrawn(w: World, t': Table, raw: nat)
    requires ValidWorld(w) && Withdrawn(w, t', raw)
    ensures Pooled(w.(table := t'))
  {
    hide ValidTable;
    hide Found;
    SpellingPresent(w.table, raw);
    var w' := w.(table := t');
    var entry := EntryOf(w.table, raw);
    if entry.kind.StringAtom? {
      var text := entry.text.value;
      assert text.cell in w.derived && Known(w, text);
      assert forall x :: InPool(t', x) ==> InPool(w.table, x) || x == text;
      assert forall x :: InPool(w.table, x) && x.cell in w.alive ==> x.units != text.units;
    } else {
      assert forall x :: InPool(t', x) <==> InPool(w.table, x);
    }
  }

  lemma FoundWithdrawn(w: World, t': Table, raw: nat)
    requires ValidWorld(w) && Emptied(w.table, t', raw) && Withdrawn(w, t', raw)
    ensures Found(w.(table := t'))
  {
    hide ValidTable;
    hide Pooled;
    hide Held;
    hide Emptied;
    hide InTable;
    var entry := EntryOf(w.table, raw);
    SpellingPresent(w.table, raw);
    forall x | InTable(w.table, x)
      ensures InTable(t', x) || InPool(t', x)
    {
      SpelledBy(w.table, x);
      if w.table.strings[x.units].raw != raw {
        EmptiedSpellings(w.table, t', raw, x);
      }
    }
    assert forall x :: InPool(w.table, x) && x.cell in w.alive ==> InPool(t', x);
  }

  lemma WithdrawnKeeps(w: World, t': Table, raw: nat)
    requires ValidWorld(w) && Emptied(w.table, t', raw) && Withdrawn(w, t', raw) && ValidTable(t')
    ensures ValidWorld(w.(table := t'))
  {
    hide ValidTable;
    hide Pooled;
    hide Held;
    hide Found;
    hide Emptied;
    HeldEmptied(w, t', raw);
    PooledWithdrawn(w, t', raw);
    FoundWithdrawn(w, t', raw);
  }

  lemma SpelledBy(t: Table, x: Text)
    requires InTable(t, x)
    ensures x.units in t.strings
    ensures var raw := t.strings[x.units].raw;
            Occupied(t, raw) && EntryOf(t, raw).kind.StringAtom? && EntryOf(t, raw).text == Some(x)
  {
  }

  lemma UnlistedSlots(t: Table, entry: Entry, alive: set<nat>)
    ensures SameSlots(t, Unlisted(t, entry, alive))
  {
  }

  lemma UnlistedNames(w: World, raw: nat)
    requires ValidWorld(w) && Occupied(w.table, raw)
    ensures var t' := Unlisted(w.table, EntryOf(w.table, raw), w.alive);
            && Withdrawn(w, t', raw)
            && t'.symbols == (if EntryOf(w.table, raw).kind.GlobalSymbol? && EntryOf(w.table, raw).text.Some?
                              then w.table.symbols - {EntryOf(w.table, raw).text.value.units} else w.table.symbols)
  {
    hide Maintain;
    hide ValidTable;
    hide Found;
    hide Pooled;
    var t, entry := w.table, EntryOf(w.table, raw);
    if entry.kind.StringAtom? && entry.text.Some? {
      var text := entry.text.value;
      assert text.cell in w.alive;
      var key := t.hash(text.units);
      var bucket := if key in t.pool then t.pool[key] else [];
      var pooled := t.(strings := t.strings - {text.units}, pool := t.pool[key := bucket + [text]]);
      MaintainKeeps(pooled, w.alive);
      assert forall x :: x in bucket + [text] <==> x in bucket || x == text;
      assert InPool(pooled, text);
      assert forall x :: InPool(t, x) ==> InPool(pooled, x);
    }
  }

  lemma RemoveKeeps(w: World, raw: nat)
    requires ValidWorld(w)
    ensures var r := RemoveReleasedIndex(w.table, raw, w.alive);
            && (r.Ok? ==> ValidWorld(w.(table := r.value)))
            && (r.Ok? ==> r.value == w.table || Emptied(w.table, r.value, raw))
            && (r.Ok? <==> Unstored(raw) || Occupied(w.table, raw))
  {
    hide Unlisted;
    hide Vacated;
    hide Withdrawn;
    hide Emptied;
    hide ValidTable;
    hide Held;
    hide Pooled;
    hide Found;
    if !Unstored(raw) && Occupied(w.table, raw) && !EntryOf(w.table, raw).pinned && EntryOf(w.table, raw).references == 0 {
      var t1 := Unlisted(w.table, EntryOf(w.table, raw), w.alive);
      UnlistedSlots(w.table, EntryOf(w.table, raw), w.alive);
      UnlistedNames(w, raw);
      assert Occupied(t1, raw);
      VacatedEmpties(w.table, raw);
      VacatedSlots(w.table, t1, raw);
      var t2 := Vacated(t1, raw);
      EmptiedSame(w.table, Vacated(w.table, raw), t2, raw);
      WithdrawnSame(w, t1, t2, raw);
      SpellingPresent(w.table, raw);
      WithdrawnStrings(w, t2, raw);
      EmptiedTable(w.table, Vacated(w.table, raw), t2, raw);
      WithdrawnKeeps(w, t2, raw);
    }
  }

  lemma VacatedSlots(t: Table, t1: Table, raw: nat)
    requires SameSlots(t, t1) && Occupied(t, raw)
    ensures Occupied(t1, raw) && SameSlots(Vacated(t, raw), Vacated(t1, raw))
    ensures var t2 := Vacated(t1, raw);
            t2.strings == t1.strings && t2.symbols == t1.symbols && t2.pool == t1.pool && t2.hash == t1.hash
  {
  }

  lemma EmptiedSame(t: Table, t1: Table, t2: Table, raw: nat)
    requires Emptied(t, t1, raw) && SameSlots(t1, t2)
    ensures Emptied(t, t2, raw)
  {
    hide Count;
    assert forall i: nat :: Occupied(t2, i) <==> Occupied(t1, i);
    assert forall i: nat :: Occupied(t1, i) ==> EntryOf(t2, i) == EntryOf(t1, i) && Brand(t2, i) == Brand(t1, i);
  }

  lemma WithdrawnSame(w: World, t1: Table, t2: Table, raw: nat)
    requires Withdrawn(w, t1, raw) && t2.strings == t1.strings && t2.pool == t1.pool && t2.hash == t1.hash
    ensures Withdrawn(w, t2, raw)
  {
    assert forall x :: InPool(t2, x) <==> InPool(t1, x);
  }

  lemma WithdrawnStrings(w: World, t': Table, raw: nat)
    requires Withdrawn(w, t', raw)
    ensures var entry := EntryOf(w.table, raw);
            t'.strings == if entry.kind.StringAtom? && entry.text.Some? then w.table.strings - {entry.text.value.units}
                          else w.table.strings
  {
  }
}
