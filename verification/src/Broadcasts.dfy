/**
 * The agent coordinator. Every critical section under the workers mutex is one atomic
 * step; a run is any interleaving of the steps of any number of threads.
 */
module Broadcasts {
  import opened Basics

  datatype Delivery = Delivery(generation: nat, handle: nat, value: int)

  datatype Slot = Slot(sequence: nat, pending: Option<Delivery>, acknowledged: nat)

  datatype Workers = Workers(
    nextSequence: nat,
    lastGeneration: nat,
    inProgress: bool,
    finished: bool,
    handles: seq<nat>,
    slots: seq<Slot>
  )

  datatype Refusal = SessionFinished | SequencesExhausted | GenerationsExhausted | SpawnFailed | SlotLost

  // ---- The critical sections ----

  function Posted(slots: seq<Slot>, delivery: Delivery): (r: seq<Slot>)
    ensures |r| == |slots|
    ensures forall i :: 0 <= i < |slots| ==> r[i] == slots[i].(pending := Some(delivery))
  {
    seq(|slots|, i requires 0 <= i < |slots| => slots[i].(pending := Some(delivery)))
  }

  function Publish(w: Workers, handle: nat, value: int): Result<Workers, Refusal> {
    if w.lastGeneration >= U64_MAX then Err(GenerationsExhausted)
    else
      var generation := w.lastGeneration + 1;
      Ok(w.(lastGeneration := generation, inProgress := true,
            slots := Posted(w.slots, Delivery(generation, handle, value))))
  }

  predicate Acknowledged(w: Workers, cohort: nat, generation: nat) {
    forall i :: 0 <= i < cohort && i < |w.slots| ==> w.slots[i].acknowledged >= generation
  }

  /** The position of a worker's slot. */
  function Find(slots: seq<Slot>, sequence: nat): (r: Option<nat>)
    ensures r.Some? ==> r.value < |slots| && slots[r.value].sequence == sequence
    ensures r.None? ==> forall i :: 0 <= i < |slots| ==> slots[i].sequence != sequence
  {
    if slots == [] then None
    else if slots[|slots| - 1].sequence == sequence && Find(slots[..|slots| - 1], sequence).None? then Some(|slots| - 1)
    else Find(slots[..|slots| - 1], sequence)
  }

  function Take(w: Workers, i: nat): Workers
    requires i < |w.slots| && w.slots[i].pending.Some?
  {
    w.(slots := w.slots[i := w.slots[i].(pending := None, acknowledged := w.slots[i].pending.value.generation)])
  }

  function StartWorker(w: Workers, spawned: bool): (Workers, Result<nat, Refusal>) {
    if w.finished then (w, Err(SessionFinished))
    else if w.nextSequence >= U64_MAX then (w, Err(SequencesExhausted))
    else
      var sequence := w.nextSequence;
      var w' := w.(nextSequence := sequence + 1);
      if !spawned then (w', Err(SpawnFailed))
      else (w'.(slots := w.slots + [Slot(sequence, None, 0)], handles := w.handles + [sequence]), Ok(sequence))
  }

  // ---- Threads ----

  datatype Point =
    | Outside
    | AwaitTurn(handle: nat, value: int)
    | AwaitAcknowledgements(generation: nat, cohort: nat)
    | AwaitDelivery(sequence: nat)

  datatype Publication = Publication(delivery: Delivery, cohort: nat)

  /**
   * The session with its threads and its history: the last generation before each worker started,
   * what each worker has taken, every publication, and the generations whose broadcast has returned.
   */
  datatype Session = Session(
    workers: Workers,
    threads: map<nat, Point>,
    since: seq<nat>,
    taken: seq<seq<Delivery>>,
    published: seq<Publication>,
    returned: set<nat>
  )

  datatype Step =
    | Broadcast(thread: nat, handle: nat, value: int)
    | RetryBroadcast(thread: nat)
    | CheckAcknowledgements(thread: nat)
    | Receive(thread: nat, sequence: nat)
    | RetryReceive(thread: nat)
    | Start(spawned: bool)
    | Join

  function At(s: Session, thread: nat): Point {
    if thread in s.threads then s.threads[thread] else Outside
  }

  predicate Enabled(s: Session, step: Step) {
    match step
    case Broadcast(thread, _, _) => At(s, thread) == Outside
    case RetryBroadcast(thread) => At(s, thread).AwaitTurn?
    case CheckAcknowledgements(thread) => At(s, thread).AwaitAcknowledgements?
    case Receive(thread, _) => At(s, thread) == Outside
    case RetryReceive(thread) => At(s, thread).AwaitDelivery?
    case _ => true
  }

  /** Entering `broadcast`, or waking up before its turn. */
  function EnterBroadcast(s: Session, thread: nat, handle: nat, value: int): Session {
    if s.workers.inProgress then s.(threads := s.threads[thread := AwaitTurn(handle, value)])
    else
      match Publish(s.workers, handle, value)
      case Err(_) => s.(threads := s.threads[thread := Outside])
      case Ok(w) =>
        var cohort := |w.slots|;
        var s' := s.(workers := w, published := s.published + [Publication(Delivery(w.lastGeneration, handle, value), cohort)]);
        LeaveBroadcast(s', thread, w.lastGeneration, cohort)
  }

  /** Returning once the whole cohort has acknowledged, or waiting again. */
  function LeaveBroadcast(s: Session, thread: nat, generation: nat, cohort: nat): Session {
    if Acknowledged(s.workers, cohort, generation) then
      s.(workers := s.workers.(inProgress := false), threads := s.threads[thread := Outside],
         returned := s.returned + {generation})
    else s.(threads := s.threads[thread := AwaitAcknowledgements(generation, cohort)])
  }

  /** The history with one more delivery taken by a worker. */
  function Noted(taken: seq<seq<Delivery>>, i: nat, delivery: Delivery): seq<seq<Delivery>> {
    seq(|taken|, k requires 0 <= k < |taken| => if k == i then taken[k] + [delivery] else taken[k])
  }

  function TryReceive(s: Session, thread: nat, sequence: nat): Session {
    var i := Find(s.workers.slots, sequence);
    if i.None? then s.(threads := s.threads[thread := Outside])
    else if s.workers.slots[i.value].pending.None? then s.(threads := s.threads[thread := AwaitDelivery(sequence)])
    else
      s.(workers := Take(s.workers, i.value), threads := s.threads[thread := Outside],
         taken := Noted(s.taken, i.value, s.workers.slots[i.value].pending.value))
  }

  function Next(s: Session, step: Step): Session
    requires Enabled(s, step)
  {
    match step
    case Broadcast(thread, handle, value) => EnterBroadcast(s, thread, handle, value)
    case RetryBroadcast(thread) => EnterBroadcast(s, thread, At(s, thread).handle, At(s, thread).value)
    case CheckAcknowledgements(thread) => LeaveBroadcast(s, thread, At(s, thread).generation, At(s, thread).cohort)
    case Receive(thread, sequence) => TryReceive(s, thread, sequence)
    case RetryReceive(thread) => TryReceive(s, thread, At(s, thread).sequence)
    case Start(spawned) =>
      var (w, r) := StartWorker(s.workers, spawned);
      if r.Ok? then s.(workers := w, since := s.since + [w.lastGeneration], taken := s.taken + [[]])
      else s.(workers := w)
    case Join =>
      if s.workers.handles == [] then s.(workers := s.workers.(finished := true))
      else s.(workers := s.workers.(handles := s.workers.handles[1..]))
  }

  predicate Possible(s: Session, steps: seq<Step>)
    decreases |steps|
  {
    steps == [] || (Enabled(s, steps[0]) && Possible(Next(s, steps[0]), steps[1..]))
  }

  function Run(s: Session, steps: seq<Step>): Session
    requires Possible(s, steps)
    decreases |steps|
  {
    if steps == [] then s else Run(Next(s, steps[0]), steps[1..])
  }

  const FRESH := Session(Workers(0, 0, false, false, [], []), map[], [], [], [], {})

  // ---- What every step keeps ----

  /** Slots are named by increasing sequence numbers. */
  predicate Ordered(w: Workers) {
    && (forall i :: 0 <= i < |w.slots| ==> w.slots[i].sequence < w.nextSequence)
    && (forall i, j :: 0 <= i < j < |w.slots| ==> w.slots[i].sequence < w.slots[j].sequence)
  }

  ghost predicate Broadcasting(s: Session, thread: nat) {
    At(s, thread).AwaitAcknowledgements?
  }

  /** A thread that waits for acknowledgements is the one broadcaster of the latest generation. */
  ghost predicate OneBroadcaster(s: Session) {
    && (forall p :: Broadcasting(s, p) ==>
          && s.workers.inProgress && s.published != []
          && At(s, p).generation == |s.published|
          && At(s, p).cohort == s.published[|s.published| - 1].cohort)
    && (forall p, q :: Broadcasting(s, p) && Broadcasting(s, q) ==> p == q)
    && (s.workers.inProgress ==> exists p :: Broadcasting(s, p))
  }

  /** What has been posted to a slot and not taken is the latest publication, and only while it is in progress. */
  ghost predicate PendingIsLatest(s: Session) {
    forall i :: 0 <= i < |s.workers.slots| && s.workers.slots[i].pending.Some? ==>
      && s.workers.inProgress && s.published != []
      && s.workers.slots[i].pending.value == s.published[|s.published| - 1].delivery
  }

  /** Publications are numbered from one; each went to the workers started before it. */
  ghost predicate Numbered(s: Session) {
    && s.workers.lastGeneration == |s.published|
    && |s.since| == |s.taken| == |s.workers.slots|
    && (forall g :: 0 <= g < |s.published| ==>
          s.published[g].delivery.generation == g + 1 && s.published[g].cohort <= |s.workers.slots|)
    && (forall g, i :: 0 <= g < |s.published| && 0 <= i < |s.since| ==> (i < s.published[g].cohort <==> s.since[i] <= g))
  }

  /** A worker has taken every publication since its start once and in order, up to the one pending. */
  ghost predicate TakenInOrder(s: Session, i: nat)
    requires i < |s.since| && i < |s.taken| && i < |s.workers.slots|
  {
    var slot, first := s.workers.slots[i], s.since[i];
    && first + |s.taken[i]| + (if slot.pending.Some? then 1 else 0) == |s.published|
    && (forall k :: 0 <= k < |s.taken[i]| ==> s.taken[i][k] == s.published[first + k].delivery)
    && slot.acknowledged == (if s.taken[i] == [] then 0 else first + |s.taken[i]|)
  }

  ghost predicate AllTaken(s: Session) {
    |s.since| == |s.taken| == |s.workers.slots| && forall i :: 0 <= i < |s.since| ==> TakenInOrder(s, i)
  }

  /** A broadcast has returned only after its whole cohort took its delivery. */
  ghost predicate ReturnedTaken(s: Session) {
    && |s.since| == |s.taken|
    && forall g :: g in s.returned ==>
         && 1 <= g <= |s.published|
         && forall i :: 0 <= i < s.published[g - 1].cohort && i < |s.taken| ==>
              s.since[i] < g && g <= s.since[i] + |s.taken[i]|
  }

  ghost predicate Safe(s: Session) {
    && Ordered(s.workers) && OneBroadcaster(s) && PendingIsLatest(s) && Numbered(s) && AllTaken(s) && ReturnedTaken(s)
  }

  lemma FreshSafe()
    ensures Safe(FRESH)
  {
  }

  /** Between broadcasts no delivery is pending: publishing overwrites nothing. */
  lemma NothingPending(s: Session, i: nat)
    requires Safe(s) && !s.workers.inProgress && i < |s.workers.slots|
    ensures s.workers.slots[i].pending.None?
  {
  }

  lemma PublishSafe(s: Session, handle: nat, value: int)
    requires Safe(s) && !s.workers.inProgress && s.workers.lastGeneration < U64_MAX
    ensures var w := Publish(s.workers, handle, value).value;
            var s' := s.(workers := w,
                         published := s.published + [Publication(Delivery(w.lastGeneration, handle, value), |w.slots|)]);
            Ordered(s'.workers) && PendingIsLatest(s') && Numbered(s') && AllTaken(s') && ReturnedTaken(s')
  {
    var w := Publish(s.workers, handle, value).value;
    var s' := s.(workers := w,
                 published := s.published + [Publication(Delivery(w.lastGeneration, handle, value), |w.slots|)]);
    forall i | 0 <= i < |s.since|
      ensures TakenInOrder(s', i)
    {
      assert TakenInOrder(s, i);
      NothingPending(s, i);
    }
    forall g, i | 0 <= g < |s'.published| && 0 <= i < |s'.since|
      ensures i < s'.published[g].cohort <==> s'.since[i] <= g
    {
      assert TakenInOrder(s, i);
    }
  }

  /** The cohort has acknowledged the latest generation exactly when nothing of it is pending. */
  lemma AcknowledgedMeansTaken(s: Session)
    requires Numbered(s) && AllTaken(s) && s.published != []
    requires Acknowledged(s.workers, s.published[|s.published| - 1].cohort, |s.published|)
    ensures forall i :: 0 <= i < |s.workers.slots| ==> s.workers.slots[i].pending.None?
    ensures forall i :: 0 <= i < s.published[|s.published| - 1].cohort ==>
      s.since[i] < |s.published| <= s.since[i] + |s.taken[i]|
  {
    forall i | 0 <= i < |s.workers.slots|
      ensures s.workers.slots[i].pending.None?
      ensures i < s.published[|s.published| - 1].cohort ==> s.since[i] < |s.published| <= s.since[i] + |s.taken[i]|
    {
      assert TakenInOrder(s, i);
    }
  }

  lemma LeaveSafe(s: Session, thread: nat)
    requires s.published != [] && s.workers.inProgress
    requires Ordered(s.workers) && PendingIsLatest(s) && Numbered(s) && AllTaken(s) && ReturnedTaken(s)
    requires forall p :: Broadcasting(s, p) ==> p == thread
    ensures Safe(LeaveBroadcast(s, thread, |s.published|, s.published[|s.published| - 1].cohort))
  {
    hide Ordered;
    var cohort := s.published[|s.published| - 1].cohort;
    var s' := LeaveBroadcast(s, thread, |s.published|, cohort);
    if Acknowledged(s.workers, cohort, |s.published|) {
      AcknowledgedMeansTaken(s);
      assert Ordered(s'.workers) by { FlagKeepsOrder(s.workers); }
    } else {
      assert Broadcasting(s', thread);
    }
    forall i | 0 <= i < |s.since|
      ensures TakenInOrder(s', i)
    {
      assert TakenInOrder(s, i);
    }
    forall p | Broadcasting(s', p)
      ensures p == thread
    {
      assert p == thread || Broadcasting(s, p);
    }
  }

  lemma FlagKeepsOrder(w: Workers)
    requires Ordered(w)
    ensures Ordered(w.(inProgress := false))
  {
  }

  /** Moving a thread that neither was nor becomes the broadcaster. */
  lemma MoveSafe(s: Session, thread: nat, point: Point)
    requires Safe(s) && !Broadcasting(s, thread) && !point.AwaitAcknowledgements?
    ensures Safe(s.(threads := s.threads[thread := point]))
  {
    hide Ordered;
    var s' := s.(threads := s.threads[thread := point]);
    assert forall p :: Broadcasting(s', p) <==> Broadcasting(s, p);
    assert forall p :: Broadcasting(s, p) ==> At(s', p) == At(s, p);
    forall i | 0 <= i < |s.since|
      ensures TakenInOrder(s', i)
    {
      assert TakenInOrder(s, i);
    }
  }

  lemma EnterSafe(s: Session, thread: nat, handle: nat, value: int)
    requires Safe(s) && !Broadcasting(s, thread)
    ensures Safe(EnterBroadcast(s, thread, handle, value))
  {
    hide Safe;
    hide Acknowledged;
    if s.workers.inProgress {
      MoveSafe(s, thread, AwaitTurn(handle, value));
    } else if s.workers.lastGeneration >= U64_MAX {
      MoveSafe(s, thread, Outside);
    } else {
      PublishSafe(s, handle, value);
      var w := Publish(s.workers, handle, value).value;
      var s' := s.(workers := w,
                   published := s.published + [Publication(Delivery(w.lastGeneration, handle, value), |w.slots|)]);
      assert forall p :: !Broadcasting(s', p) by { NobodyBroadcasting(s, s'); }
      LeaveSafe(s', thread);
    }
  }

  lemma NobodyBroadcasting(s: Session, s': Session)
    requires Safe(s) && !s.workers.inProgress && s'.threads == s.threads
    ensures forall p :: !Broadcasting(s', p)
    ensures Numbered(s)
  {
    assert forall p :: Broadcasting(s', p) <==> Broadcasting(s, p);
  }

  lemma ReceiveSafe(s: Session, thread: nat, sequence: nat)
    requires Safe(s) && !Broadcasting(s, thread)
    ensures Safe(TryReceive(s, thread, sequence))
  {
    var found := Find(s.workers.slots, sequence);
    if found.None? {
      MoveSafe(s, thread, Outside);
    } else if s.workers.slots[found.value].pending.None? {
      MoveSafe(s, thread, AwaitDelivery(sequence));
    } else {
      TakeSafe(s, found.value);
      var i := found.value;
      var delivery := s.workers.slots[i].pending.value;
      var s' := s.(workers := Take(s.workers, i), taken := s.taken[i := s.taken[i] + [delivery]]);
      assert Noted(s.taken, i, delivery) == s.taken[i := s.taken[i] + [delivery]];
      MoveSafe(s', thread, Outside);
    }
  }

  lemma TakeSafe(s: Session, i: nat)
    requires Safe(s) && i < |s.workers.slots| && s.workers.slots[i].pending.Some?
    ensures Safe(s.(workers := Take(s.workers, i),
                    taken := s.taken[i := s.taken[i] + [s.workers.slots[i].pending.value]]))
  {
    var s' := s.(workers := Take(s.workers, i), taken := s.taken[i := s.taken[i] + [s.workers.slots[i].pending.value]]);
    assert forall p :: Broadcasting(s', p) <==> Broadcasting(s, p);
    forall k | 0 <= k < |s.since|
      ensures TakenInOrder(s', k)
    {
      assert TakenInOrder(s, k);
    }
  }

  lemma StartSafe(s: Session, spawned: bool)
    requires Safe(s)
    ensures Safe(Next(s, Start(spawned)))
  {
    hide AllTaken;
    hide ReturnedTaken;
    var s' := Next(s, Start(spawned));
    assert forall p :: Broadcasting(s', p) <==> Broadcasting(s, p);
    if StartWorker(s.workers, spawned).1.Ok? {
      JoinedTaken(s, s');
    } else {
      SameTaken(s, s');
    }
  }

  /** A worker that just started has nothing to take yet. */
  lemma JoinedTaken(s: Session, s': Session)
    requires Safe(s) && s' == Next(s, Start(true)) && StartWorker(s.workers, true).1.Ok?
    ensures AllTaken(s') && ReturnedTaken(s')
  {
    hide OneBroadcaster;
    hide Ordered;
    forall k | 0 <= k < |s'.since|
      ensures TakenInOrder(s', k)
    {
      if k < |s.since| {
        assert TakenInOrder(s, k);
      }
    }
  }

  lemma SameTaken(s: Session, s': Session)
    requires AllTaken(s) && ReturnedTaken(s) && s'.workers.slots == s.workers.slots
    requires s'.since == s.since && s'.taken == s.taken && s'.published == s.published && s'.returned == s.returned
    ensures AllTaken(s') && ReturnedTaken(s')
  {
    forall k | 0 <= k < |s'.since|
      ensures TakenInOrder(s', k)
    {
      assert TakenInOrder(s, k);
    }
  }

  lemma JoinSafe(s: Session)
    requires Safe(s)
    ensures Safe(Next(s, Join))
  {
    hide AllTaken;
    hide ReturnedTaken;
    hide Find;
    var s' := Next(s, Join);
    assert forall p :: Broadcasting(s', p) <==> Broadcasting(s, p);
    SameTaken(s, s');
  }

  lemma NextSafe(s: Session, step: Step)
    requires Safe(s) && Enabled(s, step)
    ensures Safe(Next(s, step))
  {
    match step
    case Broadcast(thread, handle, value) => EnterSafe(s, thread, handle, value);
    case RetryBroadcast(thread) => EnterSafe(s, thread, At(s, thread).handle, At(s, thread).value);
    case CheckAcknowledgements(thread) =>
      assert Broadcasting(s, thread);
      LeaveSafe(s, thread);
    case Receive(thread, sequence) => ReceiveSafe(s, thread, sequence);
    case RetryReceive(thread) => ReceiveSafe(s, thread, At(s, thread).sequence);
    case Start(spawned) => StartSafe(s, spawned);
    case Join => JoinSafe(s);
  }

  /** Safety in every state of every interleaving. */
  lemma {:induction false} RunSafe(s: Session, steps: seq<Step>)
    requires Safe(s) && Possible(s, steps)
    ensures Safe(Run(s, steps))
    decreases |steps|
  {
    hide Safe;
    if steps != [] {
      NextSafe(s, steps[0]);
      RunSafe(Next(s, steps[0]), steps[1..]);
    }
  }

  /** Broadcasts exclude each other. */
  lemma OneAtATime(steps: seq<Step>, p: nat, q: nat)
    requires Possible(FRESH, steps)
    requires Broadcasting(Run(FRESH, steps), p) && Broadcasting(Run(FRESH, steps), q)
    ensures p == q
  {
    FreshSafe();
    RunSafe(FRESH, steps);
  }

  /** Publishing finds every slot empty. */
  lemma NothingOverwritten(steps: seq<Step>, i: nat)
    requires Possible(FRESH, steps)
    requires var s := Run(FRESH, steps); !s.workers.inProgress && i < |s.workers.slots|
    ensures Run(FRESH, steps).workers.slots[i].pending.None?
  {
    FreshSafe();
    RunSafe(FRESH, steps);
    NothingPending(Run(FRESH, steps), i);
  }

  /** Each worker takes the publications since its start one by one, each once; at most the latest is outstanding. */
  lemma TakenOnceInOrder(steps: seq<Step>, i: nat)
    requires Possible(FRESH, steps) && i < |Run(FRESH, steps).workers.slots|
    ensures var s := Run(FRESH, steps);
            && |s.since| == |s.taken| == |s.workers.slots|
            && var first, count := s.since[i], |s.taken[i]|;
               && first + count <= |s.published| <= first + count + 1
               && (forall k :: 0 <= k < count ==> s.taken[i][k] == s.published[first + k].delivery)
               && (forall j, k :: 0 <= j < k < count ==> s.taken[i][j].generation < s.taken[i][k].generation)
  {
    FreshSafe();
    RunSafe(FRESH, steps);
    var s := Run(FRESH, steps);
    assert TakenInOrder(s, i);
  }

  /** A broadcast that has returned was taken by every worker of its invocation-time cohort. */
  lemma ReturnsAfterCohort(steps: seq<Step>, g: nat, i: nat)
    requires Possible(FRESH, steps)
    requires var s := Run(FRESH, steps);
             g in s.returned && 1 <= g <= |s.published| && i < s.published[g - 1].cohort
    ensures var s := Run(FRESH, steps);
            && i < |s.since| == |s.taken| && s.since[i] < g && g - 1 - s.since[i] < |s.taken[i]|
            && s.taken[i][g - 1 - s.since[i]] == s.published[g - 1].delivery
  {
    FreshSafe();
    RunSafe(FRESH, steps);
    var s := Run(FRESH, steps);
    assert TakenInOrder(s, i);
  }
}
