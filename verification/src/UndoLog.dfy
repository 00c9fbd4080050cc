/**
 The executor's undo log. Instead of copying captures and registers into every
 control frame, a write records the previous value once per checkpoint, and a
 frame remembers the length of the log. Rolling back to that length restores the
 memory at the time of the push.
 */
module UndoLog {
  import opened Basics
  import opened Machine

  datatype Location = Slot(slot: nat) | Register(register: nat)

  datatype Undo =
    | UndoCapture(slot: nat, previous: Option<nat>)
    | UndoRegister(register: nat, value: RegisterValue)

  datatype LogFrame = LogFrame(kind: ControlKind, position: nat, undoLen: nat)

  function LocationOf(entry: Undo): Location {
    match entry
    case UndoCapture(slot, _) => Slot(slot)
    case UndoRegister(register, _) => Register(register)
  }

  predicate InRange(location: Location, memory: Memory) {
    match location
    case Slot(slot) => slot < |memory.captures|
    case Register(register) => register < |memory.registers|
  }

  /** The entry that restores the present value of a location. */
  function EntryFor(location: Location, memory: Memory): (r: Undo)
    requires InRange(location, memory)
    ensures LocationOf(r) == location
  {
    match location
    case Slot(slot) => UndoCapture(slot, memory.captures[slot])
    case Register(register) => UndoRegister(register, memory.registers[register])
  }

  function Apply(memory: Memory, entry: Undo): (r: Memory)
    requires InRange(LocationOf(entry), memory)
    ensures |r.captures| == |memory.captures| && |r.registers| == |memory.registers|
  {
    match entry
    case UndoCapture(slot, previous) => SetCapture(memory, slot, previous)
    case UndoRegister(register, value) => SetRegisterTo(memory, register, value)
  }

  predicate EntriesInRange(undo: seq<Undo>, memory: Memory) {
    forall i :: 0 <= i < |undo| ==> InRange(LocationOf(undo[i]), memory)
  }

  /** Undo the entries beyond `length`, newest first. */
  function Rollback(memory: Memory, undo: seq<Undo>, length: nat): (r: Memory)
    requires EntriesInRange(undo, memory)
    ensures |r.captures| == |memory.captures| && |r.registers| == |memory.registers|
    decreases |undo|
  {
    if |undo| <= length then memory
    else Rollback(Apply(memory, undo[|undo| - 1]), undo[..|undo| - 1], length)
  }

  /** The oldest entry for a location at or after `from`. */
  function Recorded(undo: seq<Undo>, from: nat, location: Location): (r: Option<Undo>)
    ensures r.Some? ==> LocationOf(r.value) == location
    ensures r.Some? <==> exists i :: from <= i < |undo| && LocationOf(undo[i]) == location
    decreases |undo| - from
  {
    if from >= |undo| then None
    else if LocationOf(undo[from]) == location then Some(undo[from])
    else Recorded(undo, from + 1, location)
  }

  lemma {:induction false} RecordedAppend(undo: seq<Undo>, entry: Undo, from: nat, location: Location)
    requires from <= |undo|
    ensures Recorded(undo + [entry], from, location) ==
      if Recorded(undo, from, location).Some? then Recorded(undo, from, location)
      else if LocationOf(entry) == location then Some(entry)
      else None
    decreases |undo| - from
  {
    if from < |undo| {
      RecordedAppend(undo, entry, from + 1, location);
    } else {
      assert Recorded(undo + [entry], |undo| + 1, location) == None;
    }
  }

  /** What rolling back leaves in a location: the oldest recorded value, or the present one. */
  lemma {:induction false} RollbackReads(memory: Memory, undo: seq<Undo>, length: nat, location: Location)
    requires EntriesInRange(undo, memory) && InRange(location, memory) && length <= |undo|
    ensures var recorded := Recorded(undo, length, location);
            EntryFor(location, Rollback(memory, undo, length))
            == if recorded.Some? then recorded.value else EntryFor(location, memory)
    decreases |undo|
  {
    if |undo| > length {
      var init, last := undo[..|undo| - 1], undo[|undo| - 1];
      assert undo == init + [last];
      RollbackReads(Apply(memory, last), init, length, location);
      RecordedAppend(init, last, length, location);
    }
  }

  lemma SameMemory(a: Memory, b: Memory)
    requires |a.captures| == |b.captures| && |a.registers| == |b.registers|
    requires forall location :: InRange(location, a) ==> EntryFor(location, a) == EntryFor(location, b)
    ensures a == b
  {
    forall i | 0 <= i < |a.captures|
      ensures a.captures[i] == b.captures[i]
    {
      assert EntryFor(Slot(i), a) == EntryFor(Slot(i), b);
    }
    forall i | 0 <= i < |a.registers|
      ensures a.registers[i] == b.registers[i]
    {
      assert EntryFor(Register(i), a) == EntryFor(Register(i), b);
    }
    assert a.captures == b.captures && a.registers == b.registers;
  }

  /** Two logs that record the same oldest values from `from` on roll back alike. */
  lemma SameRollback(memory: Memory, undo: seq<Undo>, undo': seq<Undo>, length: nat)
    requires EntriesInRange(undo, memory) && EntriesInRange(undo', memory)
    requires length <= |undo| && length <= |undo'|
    requires forall location :: Recorded(undo, length, location) == Recorded(undo', length, location)
    ensures Rollback(memory, undo, length) == Rollback(memory, undo', length)
  {
    var a, b := Rollback(memory, undo, length), Rollback(memory, undo', length);
    forall location | InRange(location, a)
      ensures EntryFor(location, a) == EntryFor(location, b)
    {
      RollbackReads(memory, undo, length, location);
      RollbackReads(memory, undo', length, location);
    }
    SameMemory(a, b);
  }

  // ---- Writes ----

  /** The log after recording a write to `location`: skipped when already recorded since the checkpoint. */
  function Record(undo: seq<Undo>, checkpoint: nat, location: Location, memory: Memory): (r: seq<Undo>)
    requires InRange(location, memory)
    ensures |undo| <= |r|
    ensures EntriesInRange(undo, memory) ==> EntriesInRange(r, memory)
  {
    if Recorded(undo, checkpoint, location).Some? then undo else undo + [EntryFor(location, memory)]
  }

  /** A recorded write is invisible after rolling back to the checkpoint or further. */
  lemma WriteRollsBack(memory: Memory, undo: seq<Undo>, checkpoint: nat, entry: Undo, length: nat)
    requires InRange(LocationOf(entry), memory) && EntriesInRange(undo, memory)
    requires length <= checkpoint <= |undo|
    ensures EntriesInRange(Record(undo, checkpoint, LocationOf(entry), memory), Apply(memory, entry))
    ensures Rollback(Apply(memory, entry), Record(undo, checkpoint, LocationOf(entry), memory), length)
         == Rollback(memory, undo, length)
  {
    var target := LocationOf(entry);
    var written, undo' := Apply(memory, entry), Record(undo, checkpoint, target, memory);
    assert EntriesInRange(undo', written) by {
      forall i | 0 <= i < |undo'|
        ensures InRange(LocationOf(undo'[i]), written)
      {
        assert InRange(LocationOf(undo'[i]), memory);
      }
    }
    var a, b := Rollback(written, undo', length), Rollback(memory, undo, length);
    forall location | InRange(location, a)
      ensures EntryFor(location, a) == EntryFor(location, b)
    {
      RollbackReads(written, undo', length, location);
      RollbackReads(memory, undo, length, location);
      RecordedAppend(undo, EntryFor(target, memory), length, location);
      if location != target {
        assert EntryFor(location, written) == EntryFor(location, memory);
      } else if Recorded(undo, checkpoint, target).Some? {
        RecordedEarlier(undo, length, checkpoint, target);
      }
    }
    SameMemory(a, b);
  }

  lemma RecordedEarlier(undo: seq<Undo>, from: nat, from': nat, location: Location)
    requires from <= from' && Recorded(undo, from', location).Some?
    ensures Recorded(undo, from, location).Some?
  {
  }

  // ---- Frames ----

  predicate Checkpoints(controls: seq<LogFrame>, length: nat) {
    && (forall i :: 0 <= i < |controls| ==> controls[i].undoLen <= length)
    && (forall i, j :: 0 <= i < j < |controls| ==> controls[i].undoLen <= controls[j].undoLen)
  }

  /** The frame with a full copy of the memory that a log frame stands for. */
  function Restored(frame: LogFrame, memory: Memory, undo: seq<Undo>): Frame
    requires EntriesInRange(undo, memory)
  {
    Frame(frame.kind, frame.position, Rollback(memory, undo, frame.undoLen))
  }

  function RestoredAll(controls: seq<LogFrame>, memory: Memory, undo: seq<Undo>): (r: seq<Frame>)
    requires EntriesInRange(undo, memory)
    ensures |r| == |controls|
    ensures forall i :: 0 <= i < |controls| ==> r[i] == Restored(controls[i], memory, undo)
  {
    if controls == [] then []
    else RestoredAll(controls[..|controls| - 1], memory, undo) + [Restored(controls[|controls| - 1], memory, undo)]
  }

  lemma RestoredPrefix(controls: seq<LogFrame>, memory: Memory, undo: seq<Undo>, n: nat)
    requires EntriesInRange(undo, memory) && n <= |controls|
    ensures RestoredAll(controls[..n], memory, undo) == RestoredAll(controls, memory, undo)[..n]
  {
  }

  lemma RestoredSame(controls: seq<LogFrame>, memory: Memory, undo: seq<Undo>, memory': Memory, undo': seq<Undo>)
    requires EntriesInRange(undo, memory) && EntriesInRange(undo', memory')
    requires forall i :: 0 <= i < |controls| ==>
      Rollback(memory, undo, controls[i].undoLen) == Rollback(memory', undo', controls[i].undoLen)
    ensures RestoredAll(controls, memory, undo) == RestoredAll(controls, memory', undo')
  {
  }

  /** A write changes no frame. */
  lemma WriteKeepsFrames(controls: seq<LogFrame>, memory: Memory, undo: seq<Undo>, entry: Undo)
    requires controls != [] && Checkpoints(controls, |undo|)
    requires InRange(LocationOf(entry), memory) && EntriesInRange(undo, memory)
    ensures var undo' := Record(undo, controls[|controls| - 1].undoLen, LocationOf(entry), memory);
            && EntriesInRange(undo', Apply(memory, entry))
            && Checkpoints(controls, |undo'|)
            && RestoredAll(controls, Apply(memory, entry), undo') == RestoredAll(controls, memory, undo)
  {
    var checkpoint := controls[|controls| - 1].undoLen;
    var undo' := Record(undo, checkpoint, LocationOf(entry), memory);
    WriteRollsBack(memory, undo, checkpoint, entry, checkpoint);
    forall i | 0 <= i < |controls|
      ensures Rollback(memory, undo, controls[i].undoLen)
           == Rollback(Apply(memory, entry), undo', controls[i].undoLen)
    {
      WriteRollsBack(memory, undo, checkpoint, entry, controls[i].undoLen);
    }
    RestoredSame(controls, memory, undo, Apply(memory, entry), undo');
  }

  /** Rolling back to a frame leaves what lies below it unchanged. */
  lemma {:induction false} RollbackComposes(memory: Memory, undo: seq<Undo>, upper: nat, lower: nat)
    requires EntriesInRange(undo, memory) && lower <= upper <= |undo|
    ensures EntriesInRange(undo[..upper], Rollback(memory, undo, upper))
    ensures Rollback(Rollback(memory, undo, upper), undo[..upper], lower) == Rollback(memory, undo, lower)
    decreases |undo|
  {
    if |undo| > upper {
      var init := undo[..|undo| - 1];
      RollbackComposes(Apply(memory, undo[|undo| - 1]), init, upper, lower);
      assert init[..upper] == undo[..upper];
    } else {
      assert undo[..upper] == undo;
    }
  }

  lemma RollbackKeepsFrames(controls: seq<LogFrame>, memory: Memory, undo: seq<Undo>, length: nat)
    requires EntriesInRange(undo, memory) && length <= |undo| && Checkpoints(controls, length)
    ensures EntriesInRange(undo[..length], Rollback(memory, undo, length))
    ensures RestoredAll(controls, Rollback(memory, undo, length), undo[..length]) == RestoredAll(controls, memory, undo)
  {
    RollbackComposes(memory, undo, length, length);
    forall i | 0 <= i < |controls|
      ensures Rollback(memory, undo, controls[i].undoLen)
           == Rollback(Rollback(memory, undo, length), undo[..length], controls[i].undoLen)
    {
      RollbackComposes(memory, undo, length, controls[i].undoLen);
    }
    RestoredSame(controls, memory, undo, Rollback(memory, undo, length), undo[..length]);
  }

  /** A log that agrees on what is recorded since every checkpoint serves the same frames. */
  lemma CompactKeepsFrames(controls: seq<LogFrame>, memory: Memory, undo: seq<Undo>, undo': seq<Undo>)
    requires EntriesInRange(undo, memory) && EntriesInRange(undo', memory)
    requires Checkpoints(controls, |undo|) && Checkpoints(controls, |undo'|)
    requires forall i, location :: 0 <= i < |controls| ==>
      Recorded(undo, controls[i].undoLen, location) == Recorded(undo', controls[i].undoLen, location)
    ensures RestoredAll(controls, memory, undo') == RestoredAll(controls, memory, undo)
  {
    forall i | 0 <= i < |controls|
      ensures Rollback(memory, undo, controls[i].undoLen) == Rollback(memory, undo', controls[i].undoLen)
    {
      SameRollback(memory, undo, undo', controls[i].undoLen);
    }
    RestoredSame(controls, memory, undo, memory, undo');
  }
}
