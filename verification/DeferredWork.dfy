/**
 The deferred-work slots of the camera HAL: 25 slots, each holding a job id (0 when free) and a
 status, searched by loops under `mDefLock`.
 */
module DeferredWork {

  const MAX_ONGOING_JOBS: nat := 25
  const ID_LIMIT: nat := 0x1_0000_0000
  const NO_ERROR: int := 0
  const UNKNOWN_ERROR: int := -0x8000_0000

  /** A job slot: `status` is 0 until a failure is reported for `id`. */
  datatype Slot = Slot(id: nat, status: int)

  const FREE: Slot := Slot(0, NO_ERROR)

  /** The first slot with a given id, or the number of slots. */
  function SlotOf(slots: seq<Slot>, id: nat): (i: nat)
    ensures i <= |slots| && forall j :: 0 <= j < i ==> slots[j].id != id
    ensures i < |slots| ==> slots[i].id == id
  {
    if slots == [] || slots[0].id == id then 0 else 1 + SlotOf(slots[1..], id)
  }

  lemma SlotOfUnique(slots: seq<Slot>, id: nat, i: nat)
    requires i < |slots| && slots[i].id == id && forall j :: 0 <= j < i ==> slots[j].id != id
    ensures SlotOf(slots, id) == i
  {
  }

  lemma SlotOfNone(slots: seq<Slot>, id: nat)
    requires forall j :: 0 <= j < |slots| ==> slots[j].id != id
    ensures SlotOf(slots, id) == |slots|
  {
  }

  /** Slot i is the first with a given id. */
  ghost predicate FirstWith(slots: seq<Slot>, id: nat, i: int) {
    0 <= i < |slots| && slots[i].id == id && forall j :: 0 <= j < i ==> slots[j].id != id
  }

  /** The id counter: a 32-bit increment that skips 0. */
  function NextId(id: nat): nat {
    var n := (id + 1) % ID_LIMIT;
    if n == 0 then 1 else n
  }

  /** What the callers and the worker share: the slots, the id counter, the queued job ids in order,
      and the commands sent to the worker but not yet received. */
  datatype Shared = Shared(slots: seq<Slot>, nextId: nat, queue: seq<nat>, commands: nat)

  /** Whether a new job is accepted: there is a free slot and the queue takes the job. */
  predicate Accepts(s: Shared, enqueued: bool) {
    SlotOf(s.slots, 0) < |s.slots| && enqueued
  }

  /** The shared state after a new job is queued. */
  function Queued(s: Shared): Shared
    requires SlotOf(s.slots, 0) < |s.slots|
  {
    Shared(s.slots[SlotOf(s.slots, 0) := Slot(s.nextId, NO_ERROR)], NextId(s.nextId),
           s.queue + [s.nextId], s.commands + 1)
  }

  /** The slots after the worker reports on a job: freed on success, marked on failure. */
  function Reported(slots: seq<Slot>, id: nat, status: int): seq<Slot> {
    var i := SlotOf(slots, id);
    if i == |slots| then slots
    else slots[i := if status != NO_ERROR then Slot(id, status) else FREE]
  }

  /** Whether a job is still in progress. */
  predicate InProgress(slots: seq<Slot>, id: nat) {
    SlotOf(slots, id) < |slots| && slots[SlotOf(slots, id)].status == NO_ERROR
  }

  function StatusOf(slots: seq<Slot>, id: nat): int {
    if SlotOf(slots, id) < |slots| then slots[SlotOf(slots, id)].status else NO_ERROR
  }

  class Scheduler {
    const slots: array<Slot>
    var nextId: nat
    var queue: seq<nat>
    var commands: nat

    ghost predicate Valid()
      reads this, slots
    {
      slots.Length == MAX_ONGOING_JOBS && 0 < nextId < ID_LIMIT
    }

    ghost function State(): Shared
      reads this, slots
    {
      Shared(slots[..], nextId, queue, commands)
    }

    constructor ()
      ensures Valid() && fresh(slots)
      ensures State() == Shared(seq(MAX_ONGOING_JOBS, _ => FREE), 1, [], 0)
    {
      slots := new Slot[MAX_ONGOING_JOBS](_ => FREE);
      nextId, queue, commands := 1, [], 0;
    }

    /** `queueDeferredWork`; `enqueued` says whether the command queue takes the job. */
    method QueueDeferredWork(enqueued: bool) returns (id: nat)
      requires Valid()
      modifies this, slots
      ensures Valid()
      ensures State() == if Accepts(old(State()), enqueued) then Queued(old(State())) else old(State())
      ensures id == if Accepts(old(State()), enqueued) then old(nextId) else 0
      ensures id == 0 <==> !enqueued || forall j :: 0 <= j < 25 ==> old(slots[j]).id != 0
      ensures id == 0 ==> State() == old(State())
      ensures id != 0 ==>
        && id == old(nextId) && nextId == (if id == 0xffff_ffff then 1 else id + 1)
        && queue == old(queue) + [id] && commands == old(commands) + 1
        && (exists i :: FirstWith(old(slots[..]), 0, i) && slots[..] == old(slots[..])[i := Slot(id, 0)])
    {
      var i: nat := 0;
      while i < MAX_ONGOING_JOBS
        invariant i <= MAX_ONGOING_JOBS && State() == old(State())
        invariant forall j :: 0 <= j < i ==> slots[j].id != 0
      {
        if slots[i].id == 0 {
          SlotOfUnique(slots[..], 0, i);
          assert FirstWith(slots[..], 0, i);
          if enqueued {
            queue := queue + [nextId];
            slots[i] := Slot(nextId, NO_ERROR);
            nextId := (nextId + 1) % ID_LIMIT;
            if nextId == 0 {
              nextId := 1;
            }
            commands := commands + 1;
            return slots[i].id;
          } else {
            return 0;
          }
        }
        i := i + 1;
      }
      SlotOfNone(slots[..], 0);
      return 0;
    }

    /** `dequeueDeferredWork` */
    method DequeueDeferredWork(id: nat, jobStatus: int) returns (rc: int, broadcast: bool)
      requires Valid()
      modifies slots
      ensures Valid() && State() == old(State()).(slots := Reported(old(slots[..]), id, jobStatus))
      ensures broadcast == (exists j :: 0 <= j < MAX_ONGOING_JOBS && old(slots[j]).id == id)
      ensures rc == if broadcast then NO_ERROR else UNKNOWN_ERROR
      ensures !broadcast ==> slots[..] == old(slots[..])
      ensures broadcast ==>
        var after := if jobStatus == 0 then Slot(0, 0) else Slot(id, jobStatus);
        exists i :: FirstWith(old(slots[..]), id, i) && slots[..] == old(slots[..])[i := after]
    {
      var i: nat := 0;
      while i < MAX_ONGOING_JOBS
        invariant i <= MAX_ONGOING_JOBS && State() == old(State())
        invariant forall j :: 0 <= j < i ==> slots[j].id != id
      {
        if slots[i].id == id {
          SlotOfUnique(slots[..], id, i);
          assert FirstWith(slots[..], id, i);
          slots[i] := if jobStatus != NO_ERROR then Slot(slots[i].id, jobStatus) else FREE;
          return NO_ERROR, true;
        }
        i := i + 1;
      }
      SlotOfNone(slots[..], id);
      return UNKNOWN_ERROR, false;
    }

    /** `checkDeferredWork` */
    method CheckDeferredWork(id: nat) returns (busy: bool)
      requires Valid()
      ensures busy == InProgress(slots[..], id)
      ensures busy <==> exists i :: FirstWith(slots[..], id, i) && slots[i].status == 0
    {
      var i: nat := 0;
      while i < MAX_ONGOING_JOBS
        invariant i <= MAX_ONGOING_JOBS && forall j :: 0 <= j < i ==> slots[j].id != id
      {
        if slots[i].id == id {
          SlotOfUnique(slots[..], id, i);
          assert FirstWith(slots[..], id, i);
          return slots[i].status == NO_ERROR;
        }
        i := i + 1;
      }
      SlotOfNone(slots[..], id);
      return false;
    }

    /** `getDefJobStatus` */
    method GetDefJobStatus(id: nat) returns (status: int)
      requires Valid()
      ensures status == StatusOf(slots[..], id)
      ensures forall i :: FirstWith(slots[..], id, i) ==> status == slots[i].status
      ensures (forall j :: 0 <= j < 25 ==> slots[j].id != id) ==> status == 0
    {
      var i: nat := 0;
      while i < MAX_ONGOING_JOBS
        invariant i <= MAX_ONGOING_JOBS && forall j :: 0 <= j < i ==> slots[j].id != id
      {
        if slots[i].id == id {
          SlotOfUnique(slots[..], id, i);
          return if slots[i].status != NO_ERROR then slots[i].status else NO_ERROR;
        }
        i := i + 1;
      }
      SlotOfNone(slots[..], id);
      return NO_ERROR;
    }
  }
}
