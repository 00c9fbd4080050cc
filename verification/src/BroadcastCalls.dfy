/**
 * What the calls of a session get: a history of calls, kept beside every run, says who published and who took
 * each delivery.
 */
module BroadcastCalls {
  import opened Basics
  import opened Broadcasts

  /** A call of `broadcast`, or of a worker waiting for one. */
  datatype Call = Said(thread: nat, handle: nat, value: int) | Asked(thread: nat, sequence: nat)

  /**
   * A session with its calls in order, the latest call of each thread, and the call behind each publication
   * and behind each delivery that was taken.
   */
  datatype Log = Log(
    session: Session,
    calls: seq<Call>,
    latest: map<nat, nat>,
    authors: seq<nat>,
    takers: seq<seq<nat>>
  )

  function ThreadOf(step: Step): Option<nat> {
    match step
    case Broadcast(thread, _, _) => Some(thread)
    case RetryBroadcast(thread) => Some(thread)
    case CheckAcknowledgements(thread) => Some(thread)
    case Receive(thread, _) => Some(thread)
    case RetryReceive(thread) => Some(thread)
    case _ => None
  }

  function CallOf(step: Step): Option<Call> {
    match step
    case Broadcast(thread, handle, value) => Some(Said(thread, handle, value))
    case Receive(thread, sequence) => Some(Asked(thread, sequence))
    case _ => None
  }

  /** The latest call of a thread; zero if it has made none. */
  function LatestOf(latest: map<nat, nat>, thread: Option<nat>): nat {
    if thread.Some? && thread.value in latest then latest[thread.value] else 0
  }

  /** The calls behind what each worker has taken, after a step that may have added to it. */
  function Credited(takers: seq<seq<nat>>, before: seq<seq<Delivery>>, after: seq<seq<Delivery>>, call: nat): seq<seq<nat>> {
    seq(|after|, i requires 0 <= i < |after| =>
      var so := if i < |takers| then takers[i] else [];
      if i < |before| && |after[i]| > |before[i]| then so + [call] else so)
  }

  /** One step, and its entry in the history. */
  function Follow(log: Log, step: Step): Log
    requires Enabled(log.session, step)
  {
    var s, s' := log.session, Next(log.session, step);
    var call := CallOf(step);
    var calls := if call.Some? then log.calls + [call.value] else log.calls;
    var latest := if call.Some? then log.latest[call.value.thread := |log.calls|] else log.latest;
    var now := LatestOf(latest, ThreadOf(step));
    Log(s', calls, latest, if |s'.published| > |s.published| then log.authors + [now] else log.authors,
        Credited(log.takers, s.taken, s'.taken, now))
  }

  function FollowAll(log: Log, steps: seq<Step>): Log
    requires Possible(log.session, steps)
    decreases |steps|
  {
    if steps == [] then log else FollowAll(Follow(log, steps[0]), steps[1..])
  }

  const BLANK := Log(FRESH, [], map[], [], [])

  // ---- What the history says ----

  /** A publication carries the handle and the value of its call, and no call is published twice. */
  predicate Authored(log: Log) {
    && |log.authors| == |log.session.published|
    && (forall g :: 0 <= g < |log.authors| ==>
          && log.authors[g] < |log.calls|
          && var call, delivery := log.calls[log.authors[g]], log.session.published[g].delivery;
             call.Said? && call.handle == delivery.handle && call.value == delivery.value)
    && (forall g, h :: 0 <= g < h < |log.authors| ==> log.authors[g] < |log.calls| && log.authors[g] != log.authors[h])
  }

  predicate Taken(log: Log, i: nat, k: nat)
    requires i < |log.takers| && k < |log.takers[i]|
  {
    && i < |log.session.workers.slots| && log.takers[i][k] < |log.calls|
    && var call := log.calls[log.takers[i][k]];
       call.Asked? && call.sequence == log.session.workers.slots[i].sequence
  }

  /** What was taken from a slot was taken by a call of the worker that owns the slot. */
  predicate Owned(log: Log) {
    && |log.takers| == |log.session.taken|
    && (forall i :: 0 <= i < |log.takers| ==> |log.takers[i]| == |log.session.taken[i]|)
    && (forall i, k :: 0 <= i < |log.takers| && 0 <= k < |log.takers[i]| ==> Taken(log, i, k))
  }

  /** A thread that waits is in its latest call, not published yet, or published as the generation it waits for. */
  predicate Waits(log: Log, thread: nat) {
    var point := At(log.session, thread);
    point != Outside ==>
      && thread in log.latest && log.latest[thread] < |log.calls|
      && var latest := log.latest[thread];
         match point
         case AwaitTurn(handle, value) => log.calls[latest] == Said(thread, handle, value) && latest !in log.authors
         case AwaitAcknowledgements(generation, _) =>
           && log.calls[latest].Said? && log.calls[latest].thread == thread
           && 1 <= generation <= |log.authors| && log.authors[generation - 1] == latest
         case AwaitDelivery(sequence) => log.calls[latest] == Asked(thread, sequence)
         case Outside => true
  }

  ghost predicate Accounted(log: Log) {
    Authored(log) && Owned(log) && forall thread :: Waits(log, thread)
  }

  // ---- Every step keeps it ----

  /** A thread in the call it made last, with the session as it was. */
  ghost predicate Inside(log: Log, thread: nat, call: Call) {
    && Authored(log) && Owned(log)
    && (forall other :: other != thread ==> Waits(log, other))
    && thread in log.latest && log.latest[thread] < |log.calls| && log.calls[log.latest[thread]] == call
    && call.thread == thread
  }

  /** The history with one more call. */
  function Recorded(log: Log, call: Call): Log {
    log.(calls := log.calls + [call], latest := log.latest[call.thread := |log.calls|])
  }

  lemma RecordedInside(log: Log, call: Call)
    requires Accounted(log)
    ensures Inside(Recorded(log, call), call.thread, call) && |log.calls| !in log.authors
  {
    var log' := Recorded(log, call);
    forall other | other != call.thread
      ensures Waits(log', other)
    {
      assert Waits(log, other);
    }
    forall i, k | 0 <= i < |log.takers| && 0 <= k < |log.takers[i]|
      ensures Taken(log', i, k)
    {
      assert Taken(log, i, k);
    }
  }

  /** Nothing was taken by a step that leaves `taken` alone. */
  lemma NoneTaken(log: Log, taken: seq<seq<Delivery>>, call: nat)
    requires Owned(log) && taken == log.session.taken
    ensures Credited(log.takers, log.session.taken, taken, call) == log.takers
  {
  }

  /** The thread moves to another point of its call and nothing is published or taken. */
  lemma MovesAccounted(log: Log, s': Session, thread: nat, call: Call)
    requires Inside(log, thread, call)
    requires s'.published == log.session.published && s'.taken == log.session.taken
    requires s'.workers.slots == log.session.workers.slots
    requires forall other :: other != thread ==> At(s', other) == At(log.session, other)
    requires Waits(log.(session := s'), thread)
    ensures Accounted(log.(session := s'))
  {
    var log' := log.(session := s');
    forall other
      ensures Waits(log', other)
    {
      assert other != thread ==> Waits(log, other);
    }
    forall i, k | 0 <= i < |log.takers| && 0 <= k < |log.takers[i]|
      ensures Taken(log', i, k)
    {
      assert Taken(log, i, k);
    }
  }

  /** What entering `broadcast` does when it is not yet the caller's turn, or when it is. */
  lemma EnterAccounted(log: Log, thread: nat, handle: nat, value: int)
    requires Inside(log, thread, Said(thread, handle, value)) && log.latest[thread] !in log.authors && Safe(log.session)
    ensures var s' := EnterBroadcast(log.session, thread, handle, value);
            var published := |s'.published| > |log.session.published|;
            && s'.taken == log.session.taken
            && Accounted(log.(session := s', authors := if published then log.authors + [log.latest[thread]] else log.authors))
  {
    hide Safe;
    hide Acknowledged;
    hide Posted;
    var s, s' := log.session, EnterBroadcast(log.session, thread, handle, value);
    if s.workers.inProgress || s.workers.lastGeneration >= U64_MAX {
      MovesAccounted(log, s', thread, Said(thread, handle, value));
    } else {
      Counted(s);
      PublishAccounted(log, s', thread, handle, value);
    }
  }

  lemma Counted(s: Session)
    requires Safe(s)
    ensures s.workers.lastGeneration == |s.published|
  {
  }

  lemma PublishAccounted(log: Log, s': Session, thread: nat, handle: nat, value: int)
    requires Inside(log, thread, Said(thread, handle, value)) && log.latest[thread] !in log.authors
    requires s' == EnterBroadcast(log.session, thread, handle, value)
    requires !log.session.workers.inProgress && log.session.workers.lastGeneration == |log.session.published| < U64_MAX
    ensures s'.taken == log.session.taken && |s'.published| == |log.session.published| + 1
    ensures Accounted(log.(session := s', authors := log.authors + [log.latest[thread]]))
  {
    hide Acknowledged;
    var latest, g := log.latest[thread], |log.authors|;
    var log' := log.(session := s', authors := log.authors + [latest]);
    assert s'.published[..g] == log.session.published;
    assert s'.published[g].delivery == Delivery(g + 1, handle, value);
    forall other
      ensures Waits(log', other)
    {
      assert other != thread ==> Waits(log, other);
    }
    forall i, k | 0 <= i < |log.takers| && 0 <= k < |log.takers[i]|
      ensures Taken(log', i, k)
    {
      assert Taken(log, i, k);
    }
  }

  lemma ReceiveAccounted(log: Log, thread: nat, sequence: nat)
    requires Inside(log, thread, Asked(thread, sequence)) && |log.session.taken| == |log.session.workers.slots|
    ensures var s' := TryReceive(log.session, thread, sequence);
            && s'.published == log.session.published
            && Accounted(log.(session := s', takers := Credited(log.takers, log.session.taken, s'.taken, log.latest[thread])))
  {
    hide Find;
    var s, s' := log.session, TryReceive(log.session, thread, sequence);
    var found := Find(s.workers.slots, sequence);
    if found.None? || s.workers.slots[found.value].pending.None? {
      NoneTaken(log, s'.taken, log.latest[thread]);
      MovesAccounted(log, s', thread, Asked(thread, sequence));
    } else {
      TakeAccounted(log, thread, sequence, found.value, s');
    }
  }

  lemma TakeAccounted(log: Log, thread: nat, sequence: nat, i: nat, s': Session)
    requires Inside(log, thread, Asked(thread, sequence)) && |log.session.taken| == |log.session.workers.slots|
    requires i < |log.session.workers.slots| && log.session.workers.slots[i].sequence == sequence
    requires log.session.workers.slots[i].pending.Some?
    requires s' == log.session.(workers := Take(log.session.workers, i), threads := log.session.threads[thread := Outside],
                                taken := Noted(log.session.taken, i, log.session.workers.slots[i].pending.value))
    ensures Accounted(log.(session := s', takers := Credited(log.takers, log.session.taken, s'.taken, log.latest[thread])))
  {
    var log' := log.(session := s', takers := Credited(log.takers, log.session.taken, s'.taken, log.latest[thread]));
    forall j, k | 0 <= j < |log'.takers| && 0 <= k < |log'.takers[j]|
      ensures Taken(log', j, k)
    {
      assert k < |log.takers[j]| ==> Taken(log, j, k);
    }
    forall other
      ensures Waits(log', other)
    {
      assert other != thread ==> Waits(log, other);
    }
  }

  lemma CheckAccounted(log: Log, thread: nat)
    requires Accounted(log) && At(log.session, thread).AwaitAcknowledgements?
    ensures var s' := Next(log.session, CheckAcknowledgements(thread));
            && s'.taken == log.session.taken && s'.published == log.session.published
            && Accounted(log.(session := s'))
  {
    hide Acknowledged;
    assert Waits(log, thread);
    MovesAccounted(log, Next(log.session, CheckAcknowledgements(thread)), thread, log.calls[log.latest[thread]]);
  }

  /** A step of no thread: a worker starts, or one is joined. */
  lemma OutsideAccounted(log: Log, step: Step)
    requires Accounted(log) && (step.Start? || step.Join?) && |log.session.taken| == |log.session.workers.slots|
    ensures Accounted(Follow(log, step))
  {
    hide Find;
    hide Posted;
    hide Acknowledged;
    hide EnterBroadcast;
    hide TryReceive;
    hide LeaveBroadcast;
    var log' := Follow(log, step);
    forall i, k | 0 <= i < |log'.takers| && 0 <= k < |log'.takers[i]|
      ensures Taken(log', i, k)
    {
      assert Taken(log, i, k);
    }
    forall other
      ensures Waits(log', other)
    {
      assert Waits(log, other);
    }
  }

  lemma FollowAccounted(log: Log, step: Step)
    requires Accounted(log) && Safe(log.session) && Enabled(log.session, step)
    ensures Accounted(Follow(log, step))
  {
    hide EnterBroadcast;
    hide TryReceive;
    hide LeaveBroadcast;
    hide Accounted;
    hide Authored;
    hide Credited;
    assert |log.session.taken| == |log.session.workers.slots|;
    hide Safe;
    var s' := Next(log.session, step);
    match step
    case Broadcast(thread, handle, value) =>
      var log1 := Recorded(log, Said(thread, handle, value));
      RecordedInside(log, Said(thread, handle, value));
      EnterAccounted(log1, thread, handle, value);
      NoneTaken(log1, s'.taken, |log.calls|);
    case RetryBroadcast(thread) =>
      var handle, value := At(log.session, thread).handle, At(log.session, thread).value;
      WaitingInside(log, thread);
      EnterAccounted(log, thread, handle, value);
      NoneTaken(log, s'.taken, log.latest[thread]);
    case CheckAcknowledgements(thread) =>
      CheckAccounted(log, thread);
      WaitingInside(log, thread);
      NoneTaken(log, s'.taken, log.latest[thread]);
    case Receive(thread, sequence) =>
      RecordedInside(log, Asked(thread, sequence));
      ReceiveAccounted(Recorded(log, Asked(thread, sequence)), thread, sequence);
    case RetryReceive(thread) =>
      WaitingInside(log, thread);
      ReceiveAccounted(log, thread, At(log.session, thread).sequence);
    case _ => OutsideAccounted(log, step);
  }

  lemma WaitingInside(log: Log, thread: nat)
    requires Accounted(log) && At(log.session, thread) != Outside
    ensures thread in log.latest && log.latest[thread] < |log.calls| && Owned(log)
    ensures Inside(log, thread, log.calls[log.latest[thread]])
    ensures var point := At(log.session, thread);
            && (point.AwaitTurn? ==> log.calls[log.latest[thread]] == Said(thread, point.handle, point.value)
                                     && log.latest[thread] !in log.authors)
            && (point.AwaitDelivery? ==> log.calls[log.latest[thread]] == Asked(thread, point.sequence))
  {
    assert Waits(log, thread);
  }

  lemma {:induction false} RunAccounted(log: Log, steps: seq<Step>)
    requires Accounted(log) && Safe(log.session) && Possible(log.session, steps)
    ensures var log' := FollowAll(log, steps); Accounted(log') && Safe(log'.session) && log'.session == Run(log.session, steps)
    decreases |steps|
  {
    hide Accounted;
    hide Safe;
    if steps != [] {
      FollowAccounted(log, steps[0]);
      NextSafe(log.session, steps[0]);
      RunAccounted(Follow(log, steps[0]), steps[1..]);
    }
  }

  // ---- Every run ----

  lemma BlankAccounted()
    ensures Accounted(BLANK) && Safe(BLANK.session)
  {
    FreshSafe();
  }

  /** The calls of a run, read off its steps. */
  function CallsIn(steps: seq<Step>): seq<Call> {
    if steps == [] then []
    else
      var last := CallOf(steps[|steps| - 1]);
      CallsIn(steps[..|steps| - 1]) + (if last.Some? then [last.value] else [])
  }

  lemma {:induction false} FollowLast(log: Log, steps: seq<Step>)
    requires Possible(log.session, steps) && steps != []
    ensures var front, last := steps[..|steps| - 1], steps[|steps| - 1];
            && Possible(log.session, front) && Enabled(FollowAll(log, front).session, last)
            && FollowAll(log, steps) == Follow(FollowAll(log, front), last)
    decreases |steps|
  {
    hide Follow;
    hide Enabled;
    hide Next;
    FollowNext(log, steps[0]);
    if |steps| > 1 {
      FollowLast(Follow(log, steps[0]), steps[1..]);
      assert steps[1..][..|steps| - 2] == steps[..|steps| - 1][1..];
    } else {
      assert steps[1..] == [] && steps[..0] == [];
    }
  }

  lemma FollowNext(log: Log, step: Step)
    requires Enabled(log.session, step)
    ensures Follow(log, step).session == Next(log.session, step)
    ensures Follow(log, step).calls == log.calls + (if CallOf(step).Some? then [CallOf(step).value] else [])
  {
    hide Next;
  }

  lemma {:induction false} CallsAreSteps(steps: seq<Step>)
    requires Possible(FRESH, steps)
    ensures FollowAll(BLANK, steps).calls == CallsIn(steps)
    decreases |steps|
  {
    hide Follow;
    hide Enabled;
    hide Next;
    if steps != [] {
      var front, last := steps[..|steps| - 1], steps[|steps| - 1];
      FollowLast(BLANK, steps);
      CallsAreSteps(front);
      FollowNext(FollowAll(BLANK, front), last);
    }
  }

  /** Every publication of every run carries the handle and the value of one call, and of no other's. */
  lemma PublishedAsCalled(steps: seq<Step>, g: nat)
    requires Possible(FRESH, steps) && g < |Run(FRESH, steps).published|
    ensures var log := FollowAll(BLANK, steps);
            && log.session == Run(FRESH, steps) && log.calls == CallsIn(steps) && |log.authors| == |log.session.published|
            && log.authors[g] < |log.calls|
            && (var call, delivery := log.calls[log.authors[g]], log.session.published[g].delivery;
                call.Said? && call.handle == delivery.handle && call.value == delivery.value)
            && forall h :: 0 <= h < |log.authors| && h != g ==> log.authors[h] != log.authors[g]
  {
    hide Safe;
    BlankAccounted();
    RunAccounted(BLANK, steps);
    CallsAreSteps(steps);
  }

  /** A step publishes at most the call that its own thread is in. */
  lemma PublishesOwnCall(steps: seq<Step>, step: Step)
    requires Possible(FRESH, steps) && Enabled(Run(FRESH, steps), step)
    requires |Next(Run(FRESH, steps), step).published| > |Run(FRESH, steps).published|
    ensures var log := FollowAll(BLANK, steps);
            log.session == Run(FRESH, steps)
            && var log' := Follow(log, step);
               && (step.Broadcast? || step.RetryBroadcast?)
               && |log'.session.published| == |log.session.published| + 1
               && var g := |log.session.published|;
                  && log'.authors == log.authors + [LatestOf(log'.latest, ThreadOf(step))]
                  && g < |log'.authors| && log'.authors[g] < |log'.calls|
                  && var delivery := log'.session.published[g].delivery;
                     log'.calls[log'.authors[g]] == Said(step.thread, delivery.handle, delivery.value)
  {
    hide Acknowledged;
    hide Safe;
    BlankAccounted();
    RunAccounted(BLANK, steps);
    var log := FollowAll(BLANK, steps);
    FollowAccounted(log, step);
    if step.RetryBroadcast? {
      WaitingInside(log, step.thread);
    }
  }

  /** A caller that comes back, unless the generations are used up, has had its own call published and returned. */
  lemma ReturnsOwnCall(steps: seq<Step>, step: Step) returns (g: nat)
    requires Possible(FRESH, steps) && Enabled(Run(FRESH, steps), step)
    requires step.Broadcast? || step.RetryBroadcast? || step.CheckAcknowledgements?
    requires At(Next(Run(FRESH, steps), step), step.thread) == Outside
    requires !step.CheckAcknowledgements? ==> Run(FRESH, steps).workers.lastGeneration < U64_MAX
    ensures var log := FollowAll(BLANK, steps);
            log.session == Run(FRESH, steps)
            && var log' := Follow(log, step);
               && step.thread in log'.latest && g < |log'.authors| && log'.authors[g] == log'.latest[step.thread] < |log'.calls|
               && log'.calls[log'.authors[g]].Said? && log'.calls[log'.authors[g]].thread == step.thread
               && g + 1 in log'.session.returned
  {
    hide Acknowledged;
    hide Safe;
    BlankAccounted();
    RunAccounted(BLANK, steps);
    var log := FollowAll(BLANK, steps);
    FollowAccounted(log, step);
    Counted(log.session);
    if !step.Broadcast? {
      WaitingInside(log, step.thread);
    }
    if step.CheckAcknowledgements? {
      assert Waits(log, step.thread);
      g := At(log.session, step.thread).generation - 1;
    } else {
      g := |log.session.published|;
    }
  }

  /** Every delivery a worker has taken was taken by a call made for that worker. */
  lemma TakenByOwner(steps: seq<Step>, i: nat, k: nat)
    requires Possible(FRESH, steps)
    requires var s := Run(FRESH, steps); i < |s.taken| && k < |s.taken[i]|
    ensures var log := FollowAll(BLANK, steps);
            && log.session == Run(FRESH, steps) && log.calls == CallsIn(steps)
            && i < |log.takers| && k < |log.takers[i]| && i < |log.session.workers.slots| && log.takers[i][k] < |log.calls|
            && var call := log.calls[log.takers[i][k]];
               call.Asked? && call.sequence == log.session.workers.slots[i].sequence
  {
    hide Safe;
    BlankAccounted();
    RunAccounted(BLANK, steps);
    CallsAreSteps(steps);
    assert Taken(FollowAll(BLANK, steps), i, k);
  }

  // ---- The end of a session ----

  predicate Ended(s: Session) {
    s.workers.finished ==> s.workers.handles == []
  }

  lemma {:induction false} RunEnded(s: Session, steps: seq<Step>)
    requires Possible(s, steps) && Ended(s)
    ensures Ended(Run(s, steps))
    ensures s.workers.finished ==> Run(s, steps).workers.finished && |Run(s, steps).workers.slots| == |s.workers.slots|
    decreases |steps|
  {
    hide Find;
    hide Acknowledged;
    if steps != [] {
      RunEnded(Next(s, steps[0]), steps[1..]);
    }
  }

  /** A session finishes only when every handle is joined, and after that no worker starts. */
  lemma NoWorkerAfterEnd(before: seq<Step>, after: seq<Step>)
    requires Possible(FRESH, before) && Possible(Run(FRESH, before), after) && Run(FRESH, before).workers.finished
    ensures Run(FRESH, before).workers.handles == []
    ensures |Run(Run(FRESH, before), after).workers.slots| == |Run(FRESH, before).workers.slots|
  {
    RunEnded(FRESH, before);
    RunEnded(Run(FRESH, before), after);
  }
}
