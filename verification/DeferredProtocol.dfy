/**
 The deferred-work protocol: any number of callers that queue and wait, and the one worker, in every
 interleaving of their steps.

 `queueDeferredWork` holds `mDefLock` over three separate effects (enqueue, slot write, command);
 the worker needs the lock only to report.  Ids are those of one HAL instance, before the 32-bit
 counter wraps.
 */
module DeferredProtocol {
  import opened DeferredWork

  /** The caller inside `queueDeferredWork`, who holds the lock: the slot it found. */
  datatype Pending = Nobody | Enqueued(slot: nat) | Written(slot: nat)

  /** The worker: waiting for a command, between command and job, or running a job. */
  datatype Worker = Idle | Woken | Running(id: nat)

  /** A thread inside `waitDeferredWork`: asleep on the condition, or about to check again. */
  datatype Waiter = Asleep(id: nat) | Awake(id: nat)

  /** `first` is the counter when the instance starts; `reports` is the history of the worker's
      reports, in order. */
  datatype State = State(
    sh: Shared,
    pending: Pending,
    worker: Worker,
    waiters: map<nat, Waiter>,
    first: nat,
    reports: seq<(nat, int)>)

  predicate Init(s: State) {
    && s.sh == Shared(seq(MAX_ONGOING_JOBS, _ => FREE), s.first, [], 0)
    && 0 < s.first < ID_LIMIT
    && s.pending == Nobody && s.worker == Idle && s.waiters == map[] && s.reports == []
  }

  // ---------------------------------------------------------------------------------------
  // Steps
  // ---------------------------------------------------------------------------------------

  predicate LockFree(s: State) {
    s.pending == Nobody
  }

  /** A caller takes the lock, finds a free slot and enqueues the job. */
  ghost predicate Enqueue(s: State, t: State) {
    && LockFree(s) && SlotOf(s.sh.slots, 0) < |s.sh.slots| && s.sh.nextId < ID_LIMIT - 1
    && t == s.(sh := s.sh.(queue := s.sh.queue + [s.sh.nextId]), pending := Enqueued(SlotOf(s.sh.slots, 0)))
  }

  /** It writes the slot and advances the counter. */
  ghost predicate WriteSlot(s: State, t: State) {
    && s.pending.Enqueued? && s.pending.slot < |s.sh.slots|
    && t == s.(sh := s.sh.(slots := s.sh.slots[s.pending.slot := Slot(s.sh.nextId, NO_ERROR)],
                           nextId := NextId(s.sh.nextId)),
               pending := Written(s.pending.slot))
  }

  /** It sends the command, reads its id back from the slot and releases the lock. */
  ghost predicate SendCmd(s: State, t: State) {
    && s.pending.Written?
    && t == s.(sh := s.sh.(commands := s.sh.commands + 1), pending := Nobody)
  }

  /** The worker receives a command. */
  ghost predicate WorkerWakes(s: State, t: State) {
    && s.worker == Idle && s.sh.commands > 0
    && t == s.(sh := s.sh.(commands := s.sh.commands - 1), worker := Woken)
  }

  /** It takes the job at the head of the queue; an empty queue is logged and skipped. */
  ghost predicate WorkerTakes(s: State, t: State) {
    && s.worker == Woken
    && t == if s.sh.queue == [] then s.(worker := Idle)
            else s.(sh := s.sh.(queue := s.sh.queue[1..]), worker := Running(s.sh.queue[0]))
  }

  function WakeAll(waiters: map<nat, Waiter>): map<nat, Waiter> {
    map p | p in waiters :: Awake(waiters[p].id)
  }

  /** It reports a status and, if a slot has the id, wakes every waiter. */
  ghost predicate WorkerReports(s: State, t: State, status: int) {
    && s.worker.Running? && LockFree(s)
    && t == s.(sh := s.sh.(slots := Reported(s.sh.slots, s.worker.id, status)),
               worker := Idle,
               waiters := if SlotOf(s.sh.slots, s.worker.id) < |s.sh.slots| then WakeAll(s.waiters) else s.waiters,
               reports := s.reports + [(s.worker.id, status)])
  }

  /** A thread calls `waitDeferredWork` on any id. */
  ghost predicate BeginWait(s: State, t: State, p: nat, id: nat) {
    && p !in s.waiters
    && t == s.(waiters := s.waiters[p := Awake(id)])
  }

  /** Under the lock it finds the job in progress and goes to sleep. */
  ghost predicate FallAsleep(s: State, t: State, p: nat) {
    && p in s.waiters && s.waiters[p].Awake? && LockFree(s)
    && s.waiters[p].id != 0 && InProgress(s.sh.slots, s.waiters[p].id)
    && t == s.(waiters := s.waiters[p := Asleep(s.waiters[p].id)])
  }

  /** The relative wait times out. */
  ghost predicate TimesOut(s: State, t: State, p: nat) {
    && p in s.waiters && s.waiters[p].Asleep?
    && t == s.(waiters := s.waiters[p := Awake(s.waiters[p].id)])
  }

  /** Under the lock it finds the job not in progress and returns rc. */
  ghost predicate WaitReturns(s: State, t: State, p: nat, rc: int) {
    && p in s.waiters && s.waiters[p].Awake? && LockFree(s)
    && (s.waiters[p].id == 0 || !InProgress(s.sh.slots, s.waiters[p].id))
    && rc == (if s.waiters[p].id == 0 then NO_ERROR else StatusOf(s.sh.slots, s.waiters[p].id))
    && t == s.(waiters := s.waiters - {p})
  }

  datatype Action =
    | AEnqueue | AWriteSlot | ASendCmd
    | AWakes | ATakes | AReports(status: int)
    | ABeginWait(p: nat, id: nat) | AFallAsleep(p: nat) | ATimesOut(p: nat) | AReturns(p: nat, rc: int)

  ghost predicate Step(s: State, a: Action, t: State) {
    match a
    case AEnqueue => Enqueue(s, t)
    case AWriteSlot => WriteSlot(s, t)
    case ASendCmd => SendCmd(s, t)
    case AWakes => WorkerWakes(s, t)
    case ATakes => WorkerTakes(s, t)
    case AReports(status) => WorkerReports(s, t, status)
    case ABeginWait(p, id) => BeginWait(s, t, p, id)
    case AFallAsleep(p) => FallAsleep(s, t, p)
    case ATimesOut(p) => TimesOut(s, t, p)
    case AReturns(p, rc) => WaitReturns(s, t, p, rc)
  }

  // ---------------------------------------------------------------------------------------
  // The invariant
  // ---------------------------------------------------------------------------------------

  /** The first job not yet reported. */
  function Oldest(s: State): nat {
    s.first + |s.reports|
  }

  predicate Issued(s: State, id: nat) {
    s.first <= id < s.sh.nextId
  }

  predicate Finished(s: State, id: nat) {
    s.first <= id < Oldest(s)
  }

  function Report(s: State, id: nat): int
    requires Finished(s, id)
  {
    s.reports[id - s.first].1
  }

  /** What the slots must hold of an id: a job in progress, a failed job, or nothing. */
  function Expected(s: State, id: nat): (slot: Slot) {
    if Finished(s, id) then (if Report(s, id) == NO_ERROR then FREE else Slot(id, Report(s, id)))
    else if Issued(s, id) then Slot(id, NO_ERROR)
    else FREE
  }

  /** Every occupied slot is the expected one of its id, and no two slots have one id. */
  ghost predicate SlotsSound(s: State) {
    && |s.sh.slots| == MAX_ONGOING_JOBS
    && (forall i :: 0 <= i < |s.sh.slots| ==> s.sh.slots[i] == if s.sh.slots[i].id == 0 then FREE else Expected(s, s.sh.slots[i].id))
    && (forall i, j :: 0 <= i < j < |s.sh.slots| && s.sh.slots[i].id != 0 ==> s.sh.slots[i].id != s.sh.slots[j].id)
  }

  /** Every job in progress and every failed job has a slot. */
  ghost predicate SlotsComplete(s: State) {
    forall id: nat :: Expected(s, id) != FREE ==> SlotOf(s.sh.slots, id) < |s.sh.slots|
  }

  /** The id of the first queued job. */
  function QueueBase(s: State): nat {
    Oldest(s) + if s.worker.Running? then 1 else 0
  }

  /** Jobs are reported, run and queued in the order of their ids, without gap or repetition. */
  ghost predicate InOrder(s: State) {
    && (forall k :: 0 <= k < |s.reports| ==> s.reports[k].0 == s.first + k)
    && (s.worker.Running? ==> s.worker.id == Oldest(s))
    && (forall k :: 0 <= k < |s.sh.queue| ==> s.sh.queue[k] == QueueBase(s) + k)
    && QueueBase(s) + |s.sh.queue| == s.sh.nextId + (if s.pending.Enqueued? then 1 else 0)
    && 0 < s.first && s.sh.nextId < ID_LIMIT && (s.pending.Enqueued? ==> s.sh.nextId < ID_LIMIT - 1)
  }

  /** Every queued job has exactly one command, sent or about to be sent. */
  ghost predicate CommandsMatch(s: State) {
    s.sh.commands + (if s.worker == Woken then 1 else 0) + (if s.pending == Nobody then 0 else 1) == |s.sh.queue|
  }

  ghost predicate PendingOk(s: State) {
    match s.pending
    case Nobody => true
    case Enqueued(i) => i < |s.sh.slots| && s.sh.slots[i] == FREE
    case Written(i) => i < |s.sh.slots| && s.sh.nextId > 0 && s.sh.slots[i] == Slot(s.sh.nextId - 1, NO_ERROR)
  }

  /** Nobody sleeps on a job that has been reported. */
  ghost predicate SleepersOk(s: State) {
    forall p :: p in s.waiters && s.waiters[p].Asleep? ==>
      Issued(s, s.waiters[p].id) && !Finished(s, s.waiters[p].id)
  }

  ghost predicate Inv(s: State) {
    SlotsSound(s) && SlotsComplete(s) && InOrder(s) && CommandsMatch(s) && PendingOk(s) && SleepersOk(s)
  }

  lemma InitInv(s: State)
    requires Init(s)
    ensures Inv(s)
  {
  }

  /** Steps that leave slots, counter and history alone leave their part of the invariant alone. */
  lemma SlotsKept(s: State, t: State)
    requires SlotsSound(s) && SlotsComplete(s)
    requires t.sh.slots == s.sh.slots && t.sh.nextId == s.sh.nextId && t.first == s.first && t.reports == s.reports
    ensures SlotsSound(t) && SlotsComplete(t)
  {
    assert forall id: nat :: Expected(t, id) == Expected(s, id);
  }

  lemma EnqueueInv(s: State, t: State)
    requires Inv(s) && Enqueue(s, t)
    ensures Inv(t)
  {
    SlotsKept(s, t);
  }

  /** The new job gets a slot; all other ids keep theirs. */
  lemma WriteSlotSlots(s: State, t: State)
    requires Inv(s) && WriteSlot(s, t)
    ensures SlotsSound(t) && SlotsComplete(t)
  {
    var i, issued := s.pending.slot, s.sh.nextId;
    assert t.sh.nextId == issued + 1;
    assert forall id: nat :: id != issued ==> Expected(t, id) == Expected(s, id);
    assert Expected(s, issued) == FREE && Expected(t, issued) == Slot(issued, NO_ERROR);
    assert forall j :: 0 <= j < |s.sh.slots| ==> s.sh.slots[j].id != issued;
    forall id: nat | Expected(t, id) != FREE ensures SlotOf(t.sh.slots, id) < |t.sh.slots| {
      assert t.sh.slots[if id == issued then i else SlotOf(s.sh.slots, id)].id == id;
    }
  }

  lemma WriteSlotInv(s: State, t: State)
    requires Inv(s) && WriteSlot(s, t)
    ensures Inv(t)
  {
    WriteSlotSlots(s, t);
  }

  lemma SendCmdInv(s: State, t: State)
    requires Inv(s) && SendCmd(s, t)
    ensures Inv(t)
  {
    SlotsKept(s, t);
  }

  lemma WorkerMovesInv(s: State, t: State)
    requires Inv(s) && (WorkerWakes(s, t) || WorkerTakes(s, t))
    ensures Inv(t)
  {
    SlotsKept(s, t);
  }

  /** What is expected of the other jobs does not change. */
  lemma ReportsExpected(s: State, t: State, status: int)
    requires Inv(s) && WorkerReports(s, t, status)
    ensures var done := s.worker.id;
      && (forall id: nat :: id != done ==> Expected(t, id) == Expected(s, id))
      && Expected(t, done) == (if status == NO_ERROR then FREE else Slot(done, status))
      && done != 0 && |s.sh.slots| == MAX_ONGOING_JOBS && SlotOf(s.sh.slots, done) < |s.sh.slots|
      && t.sh.slots == s.sh.slots[SlotOf(s.sh.slots, done) := Expected(t, done)]
  {
    RunningHasSlot(s);
  }

  /** The reported job is freed or marked; all other ids keep their slots. */
  lemma ReportsSound(s: State, t: State, status: int)
    requires Inv(s) && WorkerReports(s, t, status)
    ensures SlotsSound(t)
  {
    ReportsExpected(s, t, status);
    hide Expected, SlotsComplete, InOrder, CommandsMatch, SleepersOk;
  }

  lemma ReportsComplete(s: State, t: State, status: int)
    requires Inv(s) && WorkerReports(s, t, status)
    ensures SlotsComplete(t)
  {
    ReportsExpected(s, t, status);
    hide Expected, SlotsSound, InOrder, CommandsMatch, SleepersOk;
    forall id: nat | Expected(t, id) != FREE ensures SlotOf(t.sh.slots, id) < |t.sh.slots| {
      assert t.sh.slots[SlotOf(s.sh.slots, id)].id == id;
    }
  }

  lemma ReportsInv(s: State, t: State, status: int)
    requires Inv(s) && WorkerReports(s, t, status)
    ensures Inv(t)
  {
    ReportsSound(s, t, status);
    ReportsComplete(s, t, status);
    RunningHasSlot(s);
  }

  /** The running job has a slot, marked in progress. */
  lemma RunningHasSlot(s: State)
    requires Inv(s) && s.worker.Running? && LockFree(s)
    ensures Issued(s, s.worker.id) && InProgress(s.sh.slots, s.worker.id)
  {
    assert Expected(s, s.worker.id) == Slot(s.worker.id, NO_ERROR);
  }

  lemma WaitersInv(s: State, a: Action, t: State)
    requires Inv(s) && Step(s, a, t) && (a.ABeginWait? || a.AFallAsleep? || a.ATimesOut? || a.AReturns?)
    ensures Inv(t)
  {
    SlotsKept(s, t);
    if a.AFallAsleep? {
      InProgressIff(s, s.waiters[a.p].id);
    }
  }

  /** A job is found in progress exactly when it is issued and not reported. */
  lemma InProgressIff(s: State, id: nat)
    requires Inv(s) && LockFree(s)
    ensures id != 0 ==> (InProgress(s.sh.slots, id) <==> Issued(s, id) && !Finished(s, id))
    ensures id != 0 && !InProgress(s.sh.slots, id) ==>
      StatusOf(s.sh.slots, id) == if Finished(s, id) then Report(s, id) else NO_ERROR
  {
    var i := SlotOf(s.sh.slots, id);
    if id != 0 && i < |s.sh.slots| {
      assert s.sh.slots[i] == Expected(s, id);
    }
  }

  lemma StepInv(s: State, a: Action, t: State)
    requires Inv(s) && Step(s, a, t)
    ensures Inv(t)
  {
    match a
    case AEnqueue => EnqueueInv(s, t);
    case AWriteSlot => WriteSlotInv(s, t);
    case ASendCmd => SendCmdInv(s, t);
    case AWakes => WorkerMovesInv(s, t);
    case ATakes => WorkerMovesInv(s, t);
    case AReports(status) => ReportsInv(s, t, status);
    case _ => WaitersInv(s, a, t);
  }

  // ---------------------------------------------------------------------------------------
  // Runs
  // ---------------------------------------------------------------------------------------

  /** A run: the states passed through and the actions between them. */
  ghost predicate IsRun(states: seq<State>, actions: seq<Action>) {
    && |states| == |actions| + 1 && Init(states[0])
    && forall k :: 0 <= k < |actions| ==> Step(states[k], actions[k], states[k + 1])
  }

  lemma {:induction false} RunInv(states: seq<State>, actions: seq<Action>, k: nat)
    requires IsRun(states, actions) && k < |states|
    ensures Inv(states[k]) && states[k].first == states[0].first
  {
    if k == 0 {
      InitInv(states[0]);
    } else {
      RunInv(states, actions, k - 1);
      StepInv(states[k - 1], actions[k - 1], states[k]);
    }
  }

  /** Jobs queued but not running, the running job, and the jobs reported failed. */
  function QueuedJobs(s: State): set<nat> {
    set k | 0 <= k < |s.sh.queue| :: s.sh.queue[k]
  }

  function RunningJobs(s: State): set<nat> {
    if s.worker.Running? then {s.worker.id} else {}
  }

  function FailedJobs(s: State): set<nat> {
    set k | 0 <= k < |s.reports| && s.reports[k].1 != NO_ERROR :: s.reports[k].0
  }

  function OccupiedIds(slots: seq<Slot>): set<nat> {
    set i | 0 <= i < |slots| && slots[i].id != 0 :: slots[i].id
  }

  /** Bijection: whenever the lock is free, the occupied slots hold exactly the queued, running and
      failed jobs, each once; these never overlap, so at most 25 are alive. */
  lemma SlotsAreJobs(states: seq<State>, actions: seq<Action>, k: nat)
    requires IsRun(states, actions) && k < |states| && LockFree(states[k])
    ensures var s := states[k];
      && OccupiedIds(s.sh.slots) == QueuedJobs(s) + RunningJobs(s) + FailedJobs(s)
      && (forall i, j :: 0 <= i < j < |s.sh.slots| && s.sh.slots[i].id != 0 ==> s.sh.slots[i].id != s.sh.slots[j].id)
      && (forall i, j :: 0 <= i < j < |s.sh.queue| ==> s.sh.queue[i] != s.sh.queue[j])
      && QueuedJobs(s) !! RunningJobs(s) && QueuedJobs(s) !! FailedJobs(s) && RunningJobs(s) !! FailedJobs(s)
      && |QueuedJobs(s)| + |RunningJobs(s)| + |FailedJobs(s)| <= MAX_ONGOING_JOBS
  {
    RunInv(states, actions, k);
    JobsDisjoint(states[k]);
    OccupiedAreJobs(states[k]);
  }

  function ReportedJobs(s: State): set<nat> {
    set k | 0 <= k < |s.reports| :: s.reports[k].0
  }

  /** None is lost and none is duplicated: in every run, every issued job is in exactly one of the queue,
      the worker and the history of reports, and there once; and these hold no other jobs, except one whose
      caller is still writing its slot. */
  lemma EveryJobOnce(states: seq<State>, actions: seq<Action>, k: nat, id: nat)
    requires IsRun(states, actions) && k < |states|
    ensures var s := states[k];
      && (id in QueuedJobs(s) + RunningJobs(s) + ReportedJobs(s)
          <==> Issued(s, id) || (s.pending.Enqueued? && id == s.sh.nextId))
      && QueuedJobs(s) !! RunningJobs(s) && QueuedJobs(s) !! ReportedJobs(s) && RunningJobs(s) !! ReportedJobs(s)
      && (forall i, j :: 0 <= i < j < |s.sh.queue| ==> s.sh.queue[i] != s.sh.queue[j])
      && (forall i, j :: 0 <= i < j < |s.reports| ==> s.reports[i].0 != s.reports[j].0)
  {
    RunInv(states, actions, k);
    var s := states[k];
    var q, r := id - QueueBase(s), id - s.first;
    assert 0 <= q < |s.sh.queue| ==> s.sh.queue[q] == id;
    assert 0 <= r < |s.reports| ==> s.reports[r].0 == id;
    assert forall j :: j in QueuedJobs(s) ==> QueueBase(s) <= j < QueueBase(s) + |s.sh.queue|;
    assert forall j :: j in ReportedJobs(s) ==> s.first <= j < Oldest(s);
  }

  lemma JobsDisjoint(s: State)
    requires Inv(s)
    ensures QueuedJobs(s) !! RunningJobs(s) && QueuedJobs(s) !! FailedJobs(s) && RunningJobs(s) !! FailedJobs(s)
  {
    assert forall id :: id in QueuedJobs(s) ==> id >= QueueBase(s);
    assert forall id :: id in FailedJobs(s) ==> id < Oldest(s);
  }

  lemma OccupiedAreJobs(s: State)
    requires Inv(s) && LockFree(s)
    ensures OccupiedIds(s.sh.slots) == QueuedJobs(s) + RunningJobs(s) + FailedJobs(s)
    ensures |QueuedJobs(s)| + |RunningJobs(s)| + |FailedJobs(s)| <= MAX_ONGOING_JOBS
  {
    var jobs := QueuedJobs(s) + RunningJobs(s) + FailedJobs(s);
    forall id: nat ensures id in OccupiedIds(s.sh.slots) <==> id in jobs {
      JobsExpected(s, id);
      OccupiedExpected(s, id);
    }
    assert OccupiedIds(s.sh.slots) == jobs;
    FewIds(s.sh.slots);
    JobsDisjoint(s);
  }

  lemma OccupiedExpected(s: State, id: nat)
    requires Inv(s)
    ensures id in OccupiedIds(s.sh.slots) ==> Expected(s, id) != FREE
    ensures Expected(s, id) != FREE ==> id in OccupiedIds(s.sh.slots)
  {
    var i := SlotOf(s.sh.slots, id);
    assert i < |s.sh.slots| ==> s.sh.slots[i].id == id;
  }

  lemma JobsExpected(s: State, id: nat)
    requires Inv(s) && LockFree(s)
    ensures id in QueuedJobs(s) + RunningJobs(s) + FailedJobs(s) <==> Expected(s, id) != FREE
  {
    var q := id - QueueBase(s);
    assert 0 <= q < |s.sh.queue| ==> s.sh.queue[q] == id;
    assert Finished(s, id) ==> s.reports[id - s.first].0 == id;
  }

  lemma {:induction false} FewIds(slots: seq<Slot>)
    ensures |OccupiedIds(slots)| <= |slots|
  {
    if slots != [] {
      var front, last := slots[..|slots| - 1], slots[|slots| - 1].id;
      FewIds(front);
      assert OccupiedIds(slots) <= OccupiedIds(front) + {last};
      SubsetCount(OccupiedIds(slots), OccupiedIds(front) + {last});
    }
  }

  lemma SubsetCount(a: set<nat>, b: set<nat>)
    requires a <= b
    ensures |a| <= |b|
  {
    assert b == a + (b - a);
  }

  lemma {:induction false} FreeSlotLeavesRoom(slots: seq<Slot>, j: nat)
    requires j < |slots| && slots[j].id == 0
    ensures |OccupiedIds(slots)| < |slots|
  {
    var n := |slots| - 1;
    var front, last := slots[..n], slots[n].id;
    if j == n {
      FewIds(front);
      SubsetCount(OccupiedIds(slots), OccupiedIds(front));
    } else {
      FreeSlotLeavesRoom(front, j);
      SubsetCount(OccupiedIds(slots), OccupiedIds(front) + {last});
    }
  }

  /** Without a free slot, the slots of different jobs are all different ids. */
  lemma {:induction false} FullTableIsAllIds(slots: seq<Slot>)
    requires forall i :: 0 <= i < |slots| ==> slots[i].id != 0
    requires forall i, j :: 0 <= i < j < |slots| ==> slots[i].id != slots[j].id
    ensures |OccupiedIds(slots)| == |slots|
  {
    if slots != [] {
      var n := |slots| - 1;
      var front, last := slots[..n], slots[n].id;
      FullTableIsAllIds(front);
      assert OccupiedIds(slots) == OccupiedIds(front) + {last};
      assert last !in OccupiedIds(front);
    }
  }

  /** With the lock free and the counter below its limit, a job is accepted exactly if fewer than 25 jobs
      are queued, running or failed. */
  lemma AcceptsIffRoom(states: seq<State>, actions: seq<Action>, k: nat)
    requires IsRun(states, actions) && k < |states|
    requires LockFree(states[k]) && states[k].sh.nextId < ID_LIMIT - 1
    ensures (exists t :: Enqueue(states[k], t))
       <==> |QueuedJobs(states[k])| + |RunningJobs(states[k])| + |FailedJobs(states[k])| < MAX_ONGOING_JOBS
  {
    RunInv(states, actions, k);
    RoomIff(states[k]);
    var s := states[k];
    if SlotOf(s.sh.slots, 0) < |s.sh.slots| {
      assert Enqueue(s, AfterEnqueue(s));
    }
  }

  lemma RoomIff(s: State)
    requires Inv(s) && LockFree(s)
    ensures SlotOf(s.sh.slots, 0) < |s.sh.slots|
       <==> |QueuedJobs(s)| + |RunningJobs(s)| + |FailedJobs(s)| < MAX_ONGOING_JOBS
  {
    OccupiedAreJobs(s);
    JobsDisjoint(s);
    assert |OccupiedIds(s.sh.slots)| == |QueuedJobs(s)| + |RunningJobs(s)| + |FailedJobs(s)|;
    if SlotOf(s.sh.slots, 0) < |s.sh.slots| {
      FreeSlotLeavesRoom(s.sh.slots, SlotOf(s.sh.slots, 0));
    } else {
      FullTableIsAllIds(s.sh.slots);
    }
  }

  /** A failed job keeps its slot for good. */
  lemma {:induction false} FailuresStay(states: seq<State>, actions: seq<Action>, k: nat, m: nat)
    requires IsRun(states, actions) && k <= m < |states|
    ensures FailedJobs(states[k]) <= FailedJobs(states[m])
  {
    if k < m {
      hide Step;
      FailuresStay(states, actions, k, m - 1);
      FailuresStayStep(states[m - 1], actions[m - 1], states[m]);
    }
  }

  lemma FailuresStayStep(s: State, a: Action, t: State)
    requires Step(s, a, t)
    ensures FailedJobs(s) <= FailedJobs(t)
  {
    assert s.reports <= t.reports;
  }

  /** So once 25 jobs have failed, no job is accepted ever again. */
  lemma FailuresExhaustTheTable(states: seq<State>, actions: seq<Action>, k: nat, m: nat)
    requires IsRun(states, actions) && k <= m < |actions| && |FailedJobs(states[k])| == MAX_ONGOING_JOBS
    ensures actions[m] != AEnqueue
  {
    hide Inv;
    FailuresStay(states, actions, k, m);
    SubsetCount(FailedJobs(states[k]), FailedJobs(states[m]));
    RunInv(states, actions, m);
    assert Step(states[m], actions[m], states[m + 1]);
    if actions[m] == AEnqueue {
      RoomIff(states[m]);
    }
  }

  // ---------------------------------------------------------------------------------------
  // A run that exhausts the table
  // ---------------------------------------------------------------------------------------

  /** A job that is queued, run and reported failed: the states after each of its six steps. */
  function AfterEnqueue(s: State): State {
    s.(sh := s.sh.(queue := s.sh.queue + [s.sh.nextId]), pending := Enqueued(SlotOf(s.sh.slots, 0)))
  }

  function AfterWrite(s: State): State
    requires s.pending.Enqueued? && s.pending.slot < |s.sh.slots|
  {
    s.(sh := s.sh.(slots := s.sh.slots[s.pending.slot := Slot(s.sh.nextId, NO_ERROR)], nextId := NextId(s.sh.nextId)),
       pending := Written(s.pending.slot))
  }

  function AfterSend(s: State): State {
    s.(sh := s.sh.(commands := s.sh.commands + 1), pending := Nobody)
  }

  function AfterWake(s: State): State
    requires s.sh.commands > 0
  {
    s.(sh := s.sh.(commands := s.sh.commands - 1), worker := Woken)
  }

  function AfterTake(s: State): State
    requires s.sh.queue != []
  {
    s.(sh := s.sh.(queue := s.sh.queue[1..]), worker := Running(s.sh.queue[0]))
  }

  const FAILURE: int := -1

  function AfterFailure(s: State): State
    requires s.worker.Running?
  {
    s.(sh := s.sh.(slots := Reported(s.sh.slots, s.worker.id, FAILURE)),
       worker := Idle,
       waiters := if SlotOf(s.sh.slots, s.worker.id) < |s.sh.slots| then WakeAll(s.waiters) else s.waiters,
       reports := s.reports + [(s.worker.id, FAILURE)])
  }

  /** Nothing is queued or running, and all n jobs so far have failed. */
  ghost predicate AllFailed(s: State, n: nat) {
    && Inv(s) && LockFree(s) && s.worker == Idle && s.sh.queue == [] && s.first == 1
    && |s.reports| == n && forall k :: 0 <= k < n ==> s.reports[k].1 == FAILURE
  }

  lemma FailedCount(s: State, n: nat)
    requires AllFailed(s, n)
    ensures FailedJobs(s) == Range(1, 1 + n) && QueuedJobs(s) == {} && RunningJobs(s) == {}
  {
    forall id: nat ensures id in FailedJobs(s) <==> id in Range(1, 1 + n) {
      if 1 <= id < 1 + n {
        assert s.reports[id - 1].0 == id;
      }
    }
  }

  lemma RunSnoc(states: seq<State>, actions: seq<Action>, a: Action, t: State)
    requires |states| == |actions| + 1 && IsRun(states, actions) && Step(states[|actions|], a, t)
    ensures IsRun(states + [t], actions + [a])
  {
    var ss, as_ := states + [t], actions + [a];
    forall k | 0 <= k < |as_| ensures Step(ss[k], as_[k], ss[k + 1]) {
      if k < |actions| {
        assert Step(states[k], actions[k], states[k + 1]);
      }
    }
  }

  /** One job is waiting for the worker, and all n jobs before it have failed. */
  ghost predicate OneWaiting(s: State, n: nat) {
    && Inv(s) && LockFree(s) && s.worker == Idle && |s.sh.queue| == 1 && s.sh.commands > 0 && s.first == 1
    && |s.reports| == n && forall k :: 0 <= k < n ==> s.reports[k].1 == FAILURE
  }

  /** While there is room a job can be queued ... */
  lemma QueueOne(s: State, n: nat) returns (s1: State, s2: State, s3: State)
    requires AllFailed(s, n) && n < MAX_ONGOING_JOBS
    ensures Step(s, AEnqueue, s1) && Step(s1, AWriteSlot, s2) && Step(s2, ASendCmd, s3) && OneWaiting(s3, n)
  {
    FailedCount(s, n);
    RoomIff(s);
    s1 := AfterEnqueue(s);
    EnqueueInv(s, s1);
    s2 := AfterWrite(s1);
    WriteSlotInv(s1, s2);
    s3 := AfterSend(s2);
    SendCmdInv(s2, s3);
  }

  /** ... and a queued job can be run and reported failed. */
  lemma FailOne(s: State, n: nat) returns (s1: State, s2: State, s3: State)
    requires OneWaiting(s, n)
    ensures Step(s, AWakes, s1) && Step(s1, ATakes, s2) && Step(s2, AReports(FAILURE), s3) && AllFailed(s3, n + 1)
  {
    s1 := AfterWake(s);
    WorkerMovesInv(s, s1);
    s2 := AfterTake(s1);
    WorkerMovesInv(s1, s2);
    s3 := AfterFailure(s2);
    ReportsInv(s2, s3, FAILURE);
  }

  lemma ThreeSteps(states: seq<State>, actions: seq<Action>, a: Action, s1: State, b: Action, s2: State, c: Action, s3: State)
    requires IsRun(states, actions)
    requires Step(states[|actions|], a, s1) && Step(s1, b, s2) && Step(s2, c, s3)
    ensures IsRun(states + [s1, s2, s3], actions + [a, b, c])
  {
    hide Step, IsRun;
    RunLength(states, actions);
    RunSnoc(states, actions, a, s1);
    RunSnoc(states + [s1], actions + [a], b, s2);
    RunSnoc(states + [s1] + [s2], actions + [a] + [b], c, s3);
    assert states + [s1] + [s2] + [s3] == states + [s1, s2, s3];
    assert actions + [a] + [b] + [c] == actions + [a, b, c];
  }

  lemma RunLength(states: seq<State>, actions: seq<Action>)
    requires IsRun(states, actions)
    ensures |states| == |actions| + 1
  {
  }

  lemma OneMoreFailure(states: seq<State>, actions: seq<Action>, n: nat) returns (ss: seq<State>, as_: seq<Action>)
    requires IsRun(states, actions) && AllFailed(states[|actions|], n) && n < MAX_ONGOING_JOBS
    ensures IsRun(ss, as_) && AllFailed(ss[|as_|], n + 1)
  {
    hide Step, AllFailed, OneWaiting;
    var s1, s2, s3 := QueueOne(states[|actions|], n);
    ThreeSteps(states, actions, AEnqueue, s1, AWriteSlot, s2, ASendCmd, s3);
    ss, as_ := states + [s1, s2, s3], actions + [AEnqueue, AWriteSlot, ASendCmd];
    var s4, s5, s6 := FailOne(s3, n);
    ThreeSteps(ss, as_, AWakes, s4, ATakes, s5, AReports(FAILURE), s6);
    ss, as_ := ss + [s4, s5, s6], as_ + [AWakes, ATakes, AReports(FAILURE)];
  }

  lemma {:induction false} FailingRun(n: nat) returns (states: seq<State>, actions: seq<Action>)
    requires n <= MAX_ONGOING_JOBS
    ensures IsRun(states, actions) && AllFailed(states[|actions|], n)
  {
    if n == 0 {
      var s := State(Shared(seq(MAX_ONGOING_JOBS, _ => FREE), 1, [], 0), Nobody, Idle, map[], 1, []);
      InitInv(s);
      states, actions := [s], [];
    } else {
      states, actions := FailingRun(n - 1);
      states, actions := OneMoreFailure(states, actions, n - 1);
    }
  }

  /** There is a run with 25 failed jobs; in none of its continuations is a job accepted again. */
  lemma TableCanBeExhausted() returns (states: seq<State>, actions: seq<Action>)
    ensures IsRun(states, actions) && |FailedJobs(states[|actions|])| == MAX_ONGOING_JOBS
    ensures !exists t :: Enqueue(states[|actions|], t)
  {
    states, actions := FailingRun(MAX_ONGOING_JOBS);
    FailedCount(states[|actions|], MAX_ONGOING_JOBS);
    AcceptsIffRoom(states, actions, |actions|);
  }

  /** The id read back from the slot at the end of queueing is that of the job enqueued. */
  lemma ReturnedIdIsEnqueued(states: seq<State>, actions: seq<Action>, k: nat)
    requires IsRun(states, actions) && k < |states| && states[k].pending.Written?
    ensures var s := states[k];
      && s.sh.queue != [] && s.pending.slot < |s.sh.slots|
      && s.sh.slots[s.pending.slot].id == s.sh.queue[|s.sh.queue| - 1] == s.sh.nextId - 1
  {
    RunInv(states, actions, k);
  }

  /** The worker never meets an empty queue, and takes a job only after its command was sent. */
  lemma WorkerFindsAJob(states: seq<State>, actions: seq<Action>, k: nat)
    requires IsRun(states, actions) && k < |states| && states[k].worker == Woken
    ensures var s := states[k];
      && s.sh.queue != [] && Issued(s, s.sh.queue[0]) && (s.pending.Written? ==> s.sh.queue[0] != s.sh.nextId - 1)
  {
    RunInv(states, actions, k);
  }

  /** Where in a run a report was made. */
  lemma {:induction false} ReportedEarlier(states: seq<State>, actions: seq<Action>, k: nat, id: nat) returns (j: nat)
    requires IsRun(states, actions) && k < |states| && Finished(states[k], id)
    ensures j < k && actions[j] == AReports(Report(states[k], id)) && states[j].worker == Running(id)
  {
    assert k > 0;
    hide Inv;
    assert Step(states[k - 1], actions[k - 1], states[k]);
    RunInv(states, actions, k - 1);
    if Finished(states[k - 1], id) {
      HistoryGrows(states[k - 1], actions[k - 1], states[k], id);
      j := ReportedEarlier(states, actions, k - 1, id);
    } else {
      NewlyFinished(states[k - 1], actions[k - 1], states[k], id);
      j := k - 1;
    }
  }

  lemma HistoryGrows(s: State, a: Action, t: State, id: nat)
    requires Step(s, a, t) && Finished(s, id)
    ensures Finished(t, id) && Report(t, id) == Report(s, id)
  {
  }

  lemma NewlyFinished(s: State, a: Action, t: State, id: nat)
    requires Inv(s) && Step(s, a, t) && !Finished(s, id) && Finished(t, id)
    ensures a == AReports(Report(t, id)) && s.worker == Running(id)
  {
  }

  /** `waitDeferredWork` on an issued id returns only after the worker has reported on that job, and
      returns the reported status, whichever jobs have used the slots since. */
  lemma WaitReturnsTheReport(states: seq<State>, actions: seq<Action>, k: nat, p: nat, rc: int) returns (j: nat)
    requires IsRun(states, actions) && k < |actions| && actions[k] == AReturns(p, rc)
    requires p in states[k].waiters && Issued(states[k], states[k].waiters[p].id)
    ensures j < k && actions[j] == AReports(rc) && states[j].worker == Running(states[k].waiters[p].id)
  {
    RunInv(states, actions, k);
    assert Step(states[k], actions[k], states[k + 1]);
    InProgressIff(states[k], states[k].waiters[p].id);
    j := ReportedEarlier(states, actions, k, states[k].waiters[p].id);
  }

  /** Waiting on 0 or on an id never issued returns NO_ERROR without sleeping. */
  lemma OtherIdsDoNotWait(states: seq<State>, actions: seq<Action>, k: nat, p: nat)
    requires IsRun(states, actions) && k < |actions|
    requires p in states[k].waiters && !Issued(states[k], states[k].waiters[p].id)
    ensures actions[k] != AFallAsleep(p)
    ensures forall rc :: actions[k] == AReturns(p, rc) ==> rc == NO_ERROR
  {
    RunInv(states, actions, k);
    assert Step(states[k], actions[k], states[k + 1]);
    if LockFree(states[k]) {
      InProgressIff(states[k], states[k].waiters[p].id);
    }
  }

  /** No wake-up is lost: whoever sleeps, sleeps on a job still queued or running, and then the
      worker or the caller holding the lock can move. */
  lemma SleepersWaitForWork(states: seq<State>, actions: seq<Action>, k: nat, p: nat)
    requires IsRun(states, actions) && k < |states| && p in states[k].waiters && states[k].waiters[p].Asleep?
    ensures var s := states[k];
      && s.waiters[p].id in QueuedJobs(s) + RunningJobs(s)
      && (s.pending == Nobody ==> s.worker != Idle || s.sh.commands > 0)
  {
    RunInv(states, actions, k);
    var s := states[k];
    var id := s.waiters[p].id;
    var q := id - QueueBase(s);
    assert 0 <= q < |s.sh.queue| ==> s.sh.queue[q] == id;
  }

  // ---------------------------------------------------------------------------------------
  // Progress
  // ---------------------------------------------------------------------------------------

  predicate IsWorkerStep(a: Action) {
    a.AWakes? || a.ATakes? || a.AReports?
  }

  function WorkerSteps(actions: seq<Action>): nat {
    if actions == [] then 0
    else WorkerSteps(actions[..|actions| - 1]) + if IsWorkerStep(actions[|actions| - 1]) then 1 else 0
  }

  /** The worker steps still needed until a job is reported: three for each job up to it, less those
      already taken for the present one. */
  function StepsLeft(s: State, id: nat): int {
    3 * (id - Oldest(s) + 1) - (match s.worker case Idle => 0 case Woken => 1 case Running(_) => 2)
  }

  /** Every worker step counts, and no other step sets a job back. */
  lemma StepsLeftStep(s: State, a: Action, t: State, id: nat)
    requires Inv(s) && Step(s, a, t) && !Finished(t, id) && Issued(s, id)
    ensures !Finished(s, id) && StepsLeft(s, id) == StepsLeft(t, id) + if IsWorkerStep(a) then 1 else 0
  {
  }

  lemma {:induction false} StepsAddUp(states: seq<State>, actions: seq<Action>, k: nat, m: nat, id: nat)
    requires IsRun(states, actions) && k <= m < |states| && Issued(states[k], id) && !Finished(states[m], id)
    ensures Issued(states[m], id)
    ensures StepsLeft(states[k], id) == StepsLeft(states[m], id) + WorkerSteps(actions[k..m])
  {
    hide Inv, Step, StepsLeft, WorkerSteps, Finished;
    if k < m {
      var n := m - 1;
      assert Step(states[n], actions[n], states[m]);
      RunInv(states, actions, n);
      StaysIssued(states, actions, k, n, id);
      StepsLeftStep(states[n], actions[n], states[m], id);
      StepsAddUp(states, actions, k, n, id);
      LastStepCounts(actions, k, n);
      IssuedStep(states[n], actions[n], states[m], id);
    } else {
      NoSteps(actions, k);
    }
  }

  lemma NoSteps(actions: seq<Action>, k: nat)
    requires k <= |actions|
    ensures WorkerSteps(actions[k..k]) == 0
  {
  }

  lemma LastStepCounts(actions: seq<Action>, k: nat, n: nat)
    requires k <= n < |actions|
    ensures WorkerSteps(actions[k..n + 1]) == WorkerSteps(actions[k..n]) + if IsWorkerStep(actions[n]) then 1 else 0
  {
    assert actions[k..n + 1][..n - k] == actions[k..n];
  }

  lemma {:induction false} StaysIssued(states: seq<State>, actions: seq<Action>, k: nat, m: nat, id: nat)
    requires IsRun(states, actions) && k <= m < |states| && Issued(states[k], id)
    ensures Issued(states[m], id)
  {
    if k < m {
      hide Step;
      StaysIssued(states, actions, k, m - 1, id);
      assert Step(states[m - 1], actions[m - 1], states[m]);
      RunInv(states, actions, m - 1);
      IssuedStep(states[m - 1], actions[m - 1], states[m], id);
    }
  }

  lemma IssuedStep(s: State, a: Action, t: State, id: nat)
    requires Inv(s) && Step(s, a, t) && Issued(s, id)
    ensures Issued(t, id)
  {
  }

  /** The unreported jobs all have slots, so there are at most 25. */
  lemma FewUnreported(s: State)
    requires Inv(s)
    ensures s.sh.nextId - Oldest(s) <= MAX_ONGOING_JOBS
  {
    if Oldest(s) < s.sh.nextId {
      forall id | id in Range(Oldest(s), s.sh.nextId) ensures id in OccupiedIds(s.sh.slots) {
        OccupiedExpected(s, id);
      }
      SubsetCount(Range(Oldest(s), s.sh.nextId), OccupiedIds(s.sh.slots));
      FewIds(s.sh.slots);
    }
  }

  function Range(a: nat, b: nat): (r: set<nat>)
    requires a <= b
    ensures (forall id :: id in r <==> a <= id < b) && |r| == b - a
    decreases b
  {
    if a == b then {} else Range(a, b - 1) + {b - 1}
  }

  /** Progress: however callers, waiters and worker interleave, a job is reported by the time the
      worker has taken 75 steps after its id was issued. */
  lemma ReportedWithin75WorkerSteps(states: seq<State>, actions: seq<Action>, k: nat, m: nat, id: nat)
    requires IsRun(states, actions) && k <= m < |states| && Issued(states[k], id)
    requires WorkerSteps(actions[k..m]) >= 3 * MAX_ONGOING_JOBS
    ensures Finished(states[m], id)
  {
    if !Finished(states[m], id) {
      RunInv(states, actions, k);
      FewUnreported(states[k]);
      StepsAddUp(states, actions, k, m, id);
      assert false;
    }
  }

  /** Without other steps in between, the three effects of `queueDeferredWork` make up `Queued`. */
  lemma QueueIsThreeSteps(s: State, t: State, u: State, v: State)
    requires Inv(s) && Enqueue(s, t) && WriteSlot(t, u) && SendCmd(u, v)
    ensures v == s.(sh := Queued(s.sh))
    ensures u.sh.slots[u.pending.slot].id == s.sh.nextId
  {
  }
}
