/** The coordinator's shared record, with its critical sections as methods on its fields. */
module AgentWorkersObject {
  import opened Basics
  import opened Broadcasts

  class AgentWorkers {
    var nextSequence: nat
    var lastGeneration: nat
    var inProgress: bool
    var finished: bool
    var handles: seq<nat>
    var slots: seq<Slot>

    ghost function Contents(): Workers
      reads this
    {
      Workers(nextSequence, lastGeneration, inProgress, finished, handles, slots)
    }

    constructor ()
      ensures Contents() == FRESH.workers
    {
      nextSequence, lastGeneration, inProgress, finished, handles, slots := 0, 0, false, false, [], [];
    }

    /** The part of a broadcast between its turn and its first wait. */
    method PublishToAll(handle: nat, value: int) returns (r: Result<nat, Refusal>)
      modifies this`lastGeneration, this`inProgress, this`slots
      ensures var spec := Publish(old(Contents()), handle, value);
              if spec.Ok? then r == Ok(spec.value.lastGeneration) && Contents() == spec.value
              else r == Err(spec.error) && Contents() == old(Contents())
    {
      if lastGeneration >= U64_MAX {
        return Err(GenerationsExhausted);
      }
      lastGeneration := lastGeneration + 1;
      inProgress := true;
      var delivery := Delivery(lastGeneration, handle, value);
      var cohort := |slots|;
      for i := 0 to cohort
        invariant |slots| == cohort == |old(slots)| && inProgress
        invariant lastGeneration == old(lastGeneration) + 1
        invariant forall k :: 0 <= k < i ==> slots[k] == old(slots)[k].(pending := Some(delivery))
        invariant forall k :: i <= k < cohort ==> slots[k] == old(slots)[k]
      {
        slots := slots[i := slots[i].(pending := Some(delivery))];
      }
      assert slots == Posted(old(slots), delivery);
      return Ok(lastGeneration);
    }

    /** Whether some worker of the cohort has still to acknowledge. */
    method AnyOutstanding(cohort: nat, generation: nat) returns (outstanding: bool)
      requires cohort <= |slots|
      ensures outstanding <==> !Acknowledged(Contents(), cohort, generation)
    {
      for i := 0 to cohort
        invariant forall k :: 0 <= k < i ==> slots[k].acknowledged >= generation
      {
        if slots[i].acknowledged < generation {
          return true;
        }
      }
      return false;
    }

    /** One look into a worker's slot: nothing yet, or the delivery, taken and acknowledged. */
    method TakePending(sequence: nat) returns (r: Result<Option<Delivery>, Refusal>)
      modifies this`slots
      ensures var spec := Find(old(slots), sequence);
              if spec.None? then r == Err(SlotLost) && Contents() == old(Contents())
              else if old(slots)[spec.value].pending.None? then r == Ok(None) && Contents() == old(Contents())
              else r == Ok(old(slots)[spec.value].pending) && Contents() == Take(old(Contents()), spec.value)
    {
      for i := 0 to |slots|
        invariant slots == old(slots) && Find(slots[..i], sequence) == None
      {
        assert slots[..i + 1][..i] == slots[..i];
        if slots[i].sequence == sequence {
          FindExtends(slots, i + 1, sequence);
          if slots[i].pending.None? {
            return Ok(None);
          }
          r := Ok(slots[i].pending);
          slots := slots[i := slots[i].(pending := None, acknowledged := slots[i].pending.value.generation)];
          return;
        }
      }
      assert slots[..|slots|] == slots;
      return Err(SlotLost);
    }

    /** Publishes the slot before the thread exists, and takes it back when there is no thread. */
    method StartAgent(spawned: bool) returns (r: Result<nat, Refusal>)
      modifies this`nextSequence, this`slots, this`handles
      ensures (Contents(), r) == StartWorker(old(Contents()), spawned)
    {
      if finished {
        return Err(SessionFinished);
      }
      var sequence := nextSequence;
      if nextSequence >= U64_MAX {
        return Err(SequencesExhausted);
      }
      nextSequence := nextSequence + 1;
      slots := slots + [Slot(sequence, None, 0)];
      if !spawned {
        slots := slots[..|slots| - 1];
        assert slots == old(slots);
        return Err(SpawnFailed);
      }
      handles := handles + [sequence];
      return Ok(sequence);
    }
  }

  /** The first slot found in a prefix is the first one found. */
  lemma {:induction false} FindExtends(slots: seq<Slot>, n: nat, sequence: nat)
    requires n <= |slots| && Find(slots[..n], sequence).Some?
    ensures Find(slots, sequence) == Find(slots[..n], sequence)
    decreases |slots| - n
  {
    if n == |slots| {
      assert slots[..n] == slots;
    } else {
      assert slots[..n + 1][..n] == slots[..n];
      FindExtends(slots, n + 1, sequence);
    }
  }
}
