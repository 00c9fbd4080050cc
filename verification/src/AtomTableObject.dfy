/** The atom table as the mutable object of the runtime, method by method equal to the state machine. */
module AtomTableObject {
  import opened Basics
  import opened Characters
  import opened AtomNames
  import opened AtomTables

  class AtomTable {
    const id: nat
    const hash: Hash
    var entries: seq<Option<Entry>>
    var generations: seq<nat>
    var free: seq<nat>
    var strings: map<seq<Unit>, Atom>
    var pool: map<nat, seq<Text>>
    var budget: nat
    var symbols: map<seq<Unit>, Atom>
    var live: nat

    ghost function Contents(): Table
      reads this
    {
      Table(id, hash, entries, generations, free, strings, pool, budget, symbols, live)
    }

    constructor (id: nat, hash: Hash)
      ensures Contents() == New(id, hash)
    {
      this.id := id;
      this.hash := hash;
      entries := [None];
      generations := [0];
      free := [];
      strings := map[];
      pool := map[];
      budget := CLEANUP_BUDGET;
      symbols := map[];
      live := 0;
    }

    // ---- Handles and counters ----

    predicate Stored(atom: Atom)
      reads this
      ensures Stored(atom) <==> ValidHandle(Contents(), atom)
    {
      && !Unstored(atom.raw) && atom.raw < |generations| && atom.raw < |entries|
      && atom.table == id && generations[atom.raw] == atom.generation && entries[atom.raw].Some?
    }

    predicate StoredIndex(raw: nat)
      reads this
      ensures StoredIndex(raw) <==> Occupied(Contents(), raw)
    {
      raw < |generations| && raw < |entries| && entries[raw].Some?
    }

    method RetainIndexShared(raw: nat) returns (r: Result<(), Error>)
      modifies this`entries
      ensures var spec := RetainIndex(old(Contents()), raw);
              if spec.Ok? then r == Ok(()) && Contents() == spec.value
              else r == Err(spec.error) && Contents() == old(Contents())
    {
      if Unstored(raw) {
        return Ok(());
      }
      if !StoredIndex(raw) {
        return Err(UnknownAtom);
      }
      var entry := entries[raw].value;
      if entry.pinned {
        return Ok(());
      }
      if entry.references >= U32_MAX {
        return Err(RefCountOverflow);
      }
      entries := entries[raw := Some(entry.(references := entry.references + 1))];
      return Ok(());
    }

    method RetainAtom(atom: Atom) returns (r: Result<Atom, Error>)
      modifies this`entries
      ensures var spec := Retain(old(Contents()), atom);
              if spec.Ok? then r == Ok(atom) && Contents() == spec.value
              else r == Err(spec.error) && Contents() == old(Contents())
    {
      if Unstored(atom.raw) {
        return Ok(atom);
      }
      if !Stored(atom) {
        return Err(UnknownAtom);
      }
      var done := RetainIndexShared(atom.raw);
      return if done.Ok? then Ok(atom) else Err(done.error);
    }

    method ReleaseIndexOnly(raw: nat) returns (r: Result<bool, Error>)
      modifies this`entries
      ensures var spec := ReleaseIndexShared(old(Contents()), raw);
              if spec.Ok? then r == Ok(spec.value.1) && Contents() == spec.value.0
              else r == Err(spec.error) && Contents() == old(Contents())
    {
      if Unstored(raw) {
        return Ok(false);
      }
      if !StoredIndex(raw) {
        return Err(UnknownAtom);
      }
      var entry := entries[raw].value;
      if entry.pinned {
        return Ok(false);
      }
      if entry.references == 0 {
        return Err(UnknownAtom);
      }
      var left := entry.references - 1;
      entries := entries[raw := Some(entry.(references := left))];
      return Ok(left == 0);
    }

    method PinAtom(atom: Atom) returns (r: Result<(), Error>)
      modifies this`entries
      ensures var spec := Pin(old(Contents()), atom);
              if spec.Ok? then r == Ok(()) && Contents() == spec.value
              else r == Err(spec.error) && Contents() == old(Contents())
    {
      if Unstored(atom.raw) {
        return Ok(());
      }
      if !Stored(atom) {
        return Err(UnknownAtom);
      }
      entries := entries[atom.raw := Some(entries[atom.raw].value.(pinned := true, references := 0))];
      return Ok(());
    }

    // ---- The pool ----

    /** One pass over a bucket of the pool. */
    method PurgePool(units: seq<Unit>, alive: set<nat>, excluded: Option<seq<Unit>>)
      modifies this`pool
      ensures Contents() == PurgeBucket(old(Contents()), units, alive, excluded)
    {
      var key := hash(units);
      if key !in pool {
        return;
      }
      var texts, index := pool[key], 0;
      while index < |texts|
        invariant Purged(texts, index, alive, excluded) == Purged(pool[key], 0, alive, excluded)
        decreases |texts| - index
      {
        if texts[index].cell in alive && excluded != Some(texts[index].units) {
          index := index + 1;
        } else {
          texts := SwapRemove(texts, index);
        }
      }
      pool := SetBucket(pool, key, texts);
    }

    /** Finds the living cell of a spelling, dropping dead cells on the way. */
    method RecoverReleasedString(units: seq<Unit>, alive: set<nat>) returns (recovered: Option<Text>)
      modifies this`pool
      ensures (Contents(), recovered) == Recover(old(Contents()), units, alive)
    {
      var key := hash(units);
      recovered := None;
      if key !in pool {
        return;
      }
      var bucket := pool[key];
      var texts, index := bucket, 0;
      while index < |texts|
        invariant index <= |texts|
        invariant unchanged(this) && Purged(texts, index, alive, None) == Purged(bucket, 0, alive, None)
        invariant recovered == FirstSpelled(texts[..index], units)
        decreases |texts| - index
      {
        if texts[index].cell in alive {
          FirstSpelledNext(texts, index, units);
          if recovered.None? && texts[index].units == units {
            recovered := Some(texts[index]);
          }
          index := index + 1;
        } else {
          assert SwapRemove(texts, index)[..index] == texts[..index];
          texts := SwapRemove(texts, index);
        }
      }
      assert texts[..index] == texts && texts == Purged(bucket, 0, alive, None);
      pool := SetBucket(pool, key, texts);
    }

    method SweepReleasedStrings(alive: set<nat>)
      modifies this`pool, this`budget
      ensures Contents() == Sweep(old(Contents()), alive)
    {
      budget := CLEANUP_BUDGET;
      pool := map k | k in pool && Living(pool[k], alive) != [] :: Living(pool[k], alive);
    }

    method MaintainReleasedStrings(alive: set<nat>)
      modifies this`pool, this`budget
      ensures Contents() == Maintain(old(Contents()), alive)
    {
      if budget != 0 {
        budget := budget - 1;
      } else {
        SweepReleasedStrings(alive);
      }
    }

    // ---- Slots ----

    method AllocateSlot(kind: Kind, text: Option<Text>, pinned: bool) returns (r: Result<Atom, Error>)
      modifies this`entries, this`generations, this`free, this`live
      ensures (Contents(), r) == Allocate(old(Contents()), kind, text, pinned)
    {
      var raw;
      if free != [] {
        raw := free[|free| - 1];
        free := free[..|free| - 1];
      } else {
        if |entries| > ATOM_MAX_TABLE_INDEX {
          return Err(TableFull);
        }
        raw := |entries|;
        entries := entries + [None];
        generations := generations + [1];
      }
      if raw >= |entries| || raw >= |generations| || entries[raw].Some? {
        return Err(TableFull);
      }
      entries := entries[raw := Some(Entry(kind, text, if pinned then 0 else 1, pinned))];
      live := live + 1;
      return Ok(Atom(raw, generations[raw], id));
    }

    method RemoveReleasedSlot(raw: nat, alive: set<nat>) returns (r: Result<(), Error>)
      modifies this
      ensures var spec := RemoveReleasedIndex(old(Contents()), raw, alive);
              if spec.Ok? then r == Ok(()) && Contents() == spec.value
              else r == Err(spec.error) && Contents() == old(Contents())
    {
      if Unstored(raw) {
        return Ok(());
      }
      if !StoredIndex(raw) {
        return Err(UnknownAtom);
      }
      var entry := entries[raw].value;
      if entry.pinned || entry.references != 0 {
        return Ok(());
      }
      UnlistEntry(entry, alive);
      entries := entries[raw := None];
      live := if live == 0 then 0 else live - 1;
      if generations[raw] < U32_MAX {
        generations := generations[raw := generations[raw] + 1];
        free := free + [raw];
      }
      return Ok(());
    }

    method UnlistEntry(entry: Entry, alive: set<nat>)
      modifies this`strings, this`symbols, this`pool, this`budget
      ensures Contents() == Unlisted(old(Contents()), entry, alive)
    {
      if entry.text.Some? {
        var text := entry.text.value;
        match entry.kind
        case StringAtom =>
          strings := strings - {text.units};
          var key := hash(text.units);
          pool := pool[key := (if key in pool then pool[key] else []) + [text]];
          MaintainReleasedStrings(alive);
        case GlobalSymbol =>
          symbols := symbols - {text.units};
        case _ =>
      }
    }

    method ReleaseSlot(raw: nat, alive: set<nat>) returns (r: Result<Outcome, Error>)
      modifies this
      ensures (Contents(), r) == ReleaseIndex(old(Contents()), raw, alive)
    {
      if Unstored(raw) {
        return Ok(Permanent);
      }
      var last := ReleaseIndexOnly(raw);
      if last.Err? {
        return Err(last.error);
      }
      if !last.value {
        if !StoredIndex(raw) {
          return Err(UnknownAtom);
        }
        var entry := entries[raw].value;
        return Ok(if entry.pinned then Permanent else Retained(entry.references));
      }
      var done := RemoveReleasedSlot(raw, alive);
      return if done.Ok? then Ok(Removed) else Err(done.error);
    }

    method ReleaseAtom(atom: Atom, alive: set<nat>) returns (r: Result<Outcome, Error>)
      modifies this
      ensures (Contents(), r) == Release(old(Contents()), atom, alive)
    {
      if Unstored(atom.raw) {
        return Ok(Permanent);
      }
      if !Stored(atom) {
        return Err(UnknownAtom);
      }
      r := ReleaseSlot(atom.raw, alive);
    }

    // ---- Interning ----

    /** Interning of a string, ordinary or predefined. */
    method InternText(text: Text, pinned: bool, alive: set<nat>) returns (r: Result<Atom, Error>)
      modifies this
      ensures (Contents(), r) == InternString(old(Contents()), text, pinned, alive)
    {
      MaintainReleasedStrings(alive);
      var parsed := ParseCanonicalU32(text.units);
      if parsed.Some? && parsed.value <= ATOM_MAX_INT {
        return Ok(Atom(ATOM_TAG_INT + parsed.value, 0, 0));
      }
      if text.units in strings {
        var atom := strings[text.units];
        if pinned {
          var done := PinAtom(atom);
          return if done.Ok? then Ok(atom) else Err(done.error);
        }
        r := RetainAtom(atom);
        return;
      }
      var recovered := RecoverReleasedString(text.units, alive);
      var cell := if recovered.Some? then recovered.value else text;
      r := AllocateSlot(StringAtom, Some(cell), pinned);
      if r.Ok? {
        strings := strings[cell.units := r.value];
        if recovered.Some? {
          PurgePool(cell.units, alive, Some(cell.units));
        }
      }
    }

    method InternGlobal(key: Text) returns (r: Result<Atom, Error>)
      modifies this
      ensures (Contents(), r) == InternGlobalSymbol(old(Contents()), key)
    {
      if key.units in symbols {
        r := RetainAtom(symbols[key.units]);
        return;
      }
      r := AllocateSlot(GlobalSymbol, Some(key), false);
      if r.Ok? {
        symbols := symbols[key.units := r.value];
      }
    }
  }

  lemma {:induction false} FirstSpelledNext(texts: seq<Text>, i: nat, units: seq<Unit>)
    requires i < |texts|
    ensures FirstSpelled(texts[..i + 1], units)
         == if FirstSpelled(texts[..i], units).Some? then FirstSpelled(texts[..i], units)
            else if texts[i].units == units then Some(texts[i]) else None
    decreases i
  {
    assert texts[..i + 1] == texts[..i] + [texts[i]];
    if i > 0 && texts[0].units != units {
      assert texts[..i + 1][1..] == texts[1..][..i] && texts[..i][1..] == texts[1..][..i - 1];
      FirstSpelledNext(texts[1..], i - 1, units);
    }
  }
}
