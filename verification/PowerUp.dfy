/**
 The hand-off between an API thread that gives the FM driver a command and waits for its event, and
 the listener that handles the event and broadcasts, in every interleaving.

 `Pwr_Up` takes the mutex before it gives the command (`lockFirst`); `TuneChannel`, `Seek` and
 `ScanList` take it after.
 */
module PowerUp {
  import opened Wrappers

  /** The API thread: before anything, having locked first, having given the command, about to wait
      with the lock, asleep in the timed wait, awake without the lock (timed out or woken), past the
      wait with the mutex given up again, done after reading the state, or refused by the driver. */
  datatype Api = Begin | Locked | Commanded | ReadyToWait | Asleep | Awake | Unlocked | Finished | Refused

  /** The listener: waiting for the event, about to lock, with the lock, with the state set, having
      broadcast, done. */
  datatype Listener = Listening | Handling | Holding | StateSet | HasBroadcast | Idle

  datatype Owner = Nobody | TheApi | TheListener

  /** `accepted`: the driver has taken the command; `on`: the listener has set the awaited state;
      `woken`: the broadcast ended the wait; `read`: what the API thread found after the wait. */
  datatype State = State(
    api: Api,
    listener: Listener,
    mutex: Owner,
    accepted: bool,
    on: bool,
    woken: bool,
    read: Option<bool>)

  predicate Init(s: State) {
    s == State(Begin, Listening, Nobody, false, false, false, None)
  }

  /** Locking first: lock, command, wait. */
  ghost predicate LockThenCommand(s: State, t: State) {
    || (s.api == Begin && s.mutex == Nobody && t == s.(api := Locked, mutex := TheApi))
    || (s.api == Locked && t == s.(api := ReadyToWait, accepted := true))
    || (s.api == Locked && t == s.(api := Refused, mutex := Nobody))
  }

  /** Commanding first: command, lock, wait. */
  ghost predicate CommandThenLock(s: State, t: State) {
    || (s.api == Begin && t == s.(api := Commanded, accepted := true))
    || (s.api == Begin && t == s.(api := Refused))
    || (s.api == Commanded && s.mutex == Nobody && t == s.(api := ReadyToWait, mutex := TheApi))
  }

  /** The wait releases the mutex and sleeps in one step; it ends by time-out (or spuriously), takes
      the mutex back and gives it up; then the state is read without the mutex. */
  ghost predicate ApiWaits(s: State, t: State) {
    || (s.api == ReadyToWait && t == s.(api := Asleep, mutex := Nobody))
    || (s.api == Asleep && t == s.(api := Awake))
    || (s.api == Awake && s.mutex == Nobody && t == s.(api := Unlocked))
    || (s.api == Unlocked && t == s.(api := Finished, read := Some(s.on)))
  }

  /** The driver emits the event only after it has accepted the command; the handler locks, sets the
      state, broadcasts and unlocks. */
  ghost predicate ListenerStep(s: State, t: State) {
    || (s.listener == Listening && s.accepted && t == s.(listener := Handling))
    || (s.listener == Handling && s.mutex == Nobody && t == s.(listener := Holding, mutex := TheListener))
    || (s.listener == Holding && t == s.(listener := StateSet, on := true))
    || (s.listener == StateSet && s.api == Asleep && t == s.(listener := HasBroadcast, api := Awake, woken := true))
    || (s.listener == StateSet && s.api != Asleep && t == s.(listener := HasBroadcast))
    || (s.listener == HasBroadcast && t == s.(listener := Idle, mutex := Nobody))
  }

  ghost predicate Step(lockFirst: bool, s: State, t: State) {
    || (lockFirst && LockThenCommand(s, t))
    || (!lockFirst && CommandThenLock(s, t))
    || ApiWaits(s, t)
    || ListenerStep(s, t)
  }

  ghost predicate IsRun(lockFirst: bool, states: seq<State>) {
    states != [] && Init(states[0]) && forall k :: 0 < k < |states| ==> Step(lockFirst, states[k - 1], states[k])
  }

  ghost predicate Reachable(lockFirst: bool, s: State) {
    exists states :: IsRun(lockFirst, states) && states[|states| - 1] == s
  }

  // ---------------------------------------------------------------------------------------
  // What holds in either order
  // ---------------------------------------------------------------------------------------

  predicate ApiHolds(api: Api) {
    api == Locked || api == ReadyToWait
  }

  predicate ListenerHolds(listener: Listener) {
    listener == Holding || listener == StateSet || listener == HasBroadcast
  }

  predicate PastBroadcast(s: State) {
    s.listener == HasBroadcast || s.listener == Idle
  }

  predicate PastWait(s: State) {
    s.api == Awake || s.api == Unlocked || s.api == Finished
  }

  /** The API thread has reached its wait. */
  predicate HasWaited(s: State) {
    s.api == Asleep || PastWait(s)
  }

  ghost predicate Inv(lockFirst: bool, s: State) {
    && (ApiHolds(s.api) <==> s.mutex == TheApi)
    && (ListenerHolds(s.listener) <==> s.mutex == TheListener)
    && (s.accepted <==> s.api == Commanded || s.api == ReadyToWait || HasWaited(s))
    && (s.listener != Listening ==> s.accepted)
    && (s.api == Commanded ==> !lockFirst) && (s.api == Locked ==> lockFirst)
    && (s.on <==> s.listener == StateSet || PastBroadcast(s))
    && (s.woken ==> s.on && PastWait(s))
    && (s.read.Some? <==> s.api == Finished)
    && (s.woken && s.read.Some? ==> s.read == Some(true))
  }

  lemma StepInv(lockFirst: bool, s: State, t: State)
    requires Inv(lockFirst, s) && Step(lockFirst, s, t)
    ensures Inv(lockFirst, t)
  {
  }

  lemma {:induction false} RunInv(lockFirst: bool, states: seq<State>, k: nat)
    requires IsRun(lockFirst, states) && k < |states|
    ensures Inv(lockFirst, states[k])
  {
    if k > 0 {
      hide Inv, Step;
      RunInv(lockFirst, states, k - 1);
      StepInv(lockFirst, states[k - 1], states[k]);
    }
  }

  /** In either order, a wait that the broadcast ended reads the state as set. */
  lemma WokenReadsOn(lockFirst: bool, s: State)
    requires Reachable(lockFirst, s) && s.woken && s.api == Finished
    ensures s.read == Some(true)
  {
    var states :| IsRun(lockFirst, states) && states[|states| - 1] == s;
    RunInv(lockFirst, states, |states| - 1);
  }

  lemma FinishedStep(lockFirst: bool, s: State, t: State)
    requires Step(lockFirst, s, t) && t.api == Finished
    ensures if s.api == Finished then t.read == s.read else s.api == Unlocked && t.read == Some(s.on)
  {
  }

  /** The read finds the state as it is at that moment. */
  lemma {:induction false} ReadsTheState(lockFirst: bool, states: seq<State>, k: nat) returns (j: nat)
    requires IsRun(lockFirst, states) && k < |states| && states[k].api == Finished
    ensures j < k && states[j].api == Unlocked && states[j + 1].api == Finished
    ensures states[k].read == Some(states[j].on)
  {
    hide Step;
    FinishedStep(lockFirst, states[k - 1], states[k]);
    if states[k - 1].api == Unlocked {
      j := k - 1;
    } else {
      j := ReadsTheState(lockFirst, states, k - 1);
    }
  }

  lemma OffStep(lockFirst: bool, s: State, t: State)
    requires Inv(lockFirst, s) && Step(lockFirst, s, t) && PastWait(t) && !t.on
    ensures !s.on && (if s.api == Asleep then t.api == Awake && !t.woken else PastWait(s))
  {
  }

  /** A wait that is over while the state is not set ended without the broadcast. */
  lemma {:induction false} EndedBefore(lockFirst: bool, states: seq<State>, k: nat) returns (j: nat)
    requires IsRun(lockFirst, states) && k < |states| && PastWait(states[k]) && !states[k].on
    ensures j < k && states[j].api == Asleep && states[j + 1].api == Awake
    ensures !states[j + 1].on && !states[j + 1].woken
  {
    hide Inv, Step;
    RunInv(lockFirst, states, k - 1);
    OffStep(lockFirst, states[k - 1], states[k]);
    if states[k - 1].api == Asleep {
      j := k - 1;
    } else {
      j := EndedBefore(lockFirst, states, k - 1);
    }
  }

  /** In either order, whoever reads the state as not set had its wait end without the broadcast, before
      the handler set the state. */
  lemma ReadingOffMeansNotWoken(lockFirst: bool, states: seq<State>, k: nat) returns (j: nat)
    requires IsRun(lockFirst, states) && k < |states| && states[k].read == Some(false)
    ensures j < k && states[j].api == Asleep && states[j + 1].api == Awake
    ensures !states[j + 1].on && !states[j + 1].woken
  {
    RunInv(lockFirst, states, k);
    var r := ReadsTheState(lockFirst, states, k);
    j := EndedBefore(lockFirst, states, r);
  }

  // ---------------------------------------------------------------------------------------
  // Locking first
  // ---------------------------------------------------------------------------------------

  /** The handler holds the mutex only after the API thread has given it up in its wait. */
  ghost predicate WaiterFirst(s: State) {
    && (ListenerHolds(s.listener) ==> HasWaited(s))
    && (PastBroadcast(s) ==> PastWait(s))
  }

  lemma WaiterFirstStep(s: State, t: State)
    requires Inv(true, s) && WaiterFirst(s) && Step(true, s, t)
    ensures WaiterFirst(t)
  {
  }

  lemma {:induction false} LockFirstInv(states: seq<State>, k: nat)
    requires IsRun(true, states) && k < |states|
    ensures WaiterFirst(states[k])
  {
    if k > 0 {
      hide Inv, Step, WaiterFirst;
      LockFirstInv(states, k - 1);
      RunInv(true, states, k - 1);
      WaiterFirstStep(states[k - 1], states[k]);
    }
  }

  /** Power-up: in every interleaving, when the listener is about to broadcast, `Pwr_Up` is waiting or
      its wait is over; after the broadcast it does not sleep. */
  lemma BroadcastFindsTheWaiter(s: State)
    requires Reachable(true, s)
    ensures s.listener == StateSet ==> HasWaited(s)
    ensures PastBroadcast(s) ==> PastWait(s)
  {
    var states :| IsRun(true, states) && states[|states| - 1] == s;
    LockFirstInv(states, |states| - 1);
  }

  // ---------------------------------------------------------------------------------------
  // Commanding first
  // ---------------------------------------------------------------------------------------

  /** The handler has the mutex although the API thread is still between its command and its lock. */
  predicate Overtaken(s: State) {
    s.api == Commanded && ListenerHolds(s.listener)
  }

  ghost predicate OvertakenBy(states: seq<State>, k: nat)
    requires k < |states|
  {
    exists j :: 0 <= j <= k && Overtaken(states[j])
  }

  /** Where a run stands, and whether the handler has overtaken the API thread in it. */
  ghost predicate RaceInv(s: State, overtaken: bool) {
    if overtaken then
      && (ListenerHolds(s.listener) || s.listener == Idle)
      && (ListenerHolds(s.listener) ==> s.api == Commanded)
    else WaiterFirst(s)
  }

  lemma RaceStep(s: State, t: State, overtaken: bool)
    requires Inv(false, s) && RaceInv(s, overtaken) && Step(false, s, t)
    ensures RaceInv(t, overtaken || Overtaken(t))
  {
  }

  lemma {:induction false} RunRace(states: seq<State>, k: nat)
    requires IsRun(false, states) && k < |states|
    ensures RaceInv(states[k], OvertakenBy(states, k))
  {
    if k > 0 {
      RunRace(states, k - 1);
      RunInv(false, states, k - 1);
      assert Step(false, states[k - 1], states[k]);
      RaceStep(states[k - 1], states[k], OvertakenBy(states, k - 1));
      assert OvertakenBy(states, k) <==> OvertakenBy(states, k - 1) || Overtaken(states[k]);
    }
  }

  lemma AboutToBroadcast(s: State, t: State, overtaken: bool)
    requires Inv(false, s) && Step(false, s, t) && RaceInv(t, overtaken) && t.listener == StateSet
    ensures overtaken <==> !HasWaited(t)
    ensures !HasWaited(t) ==> Overtaken(s)
    ensures Overtaken(t) ==> !HasWaited(t)
  {
  }

  /** Commanding first: in every run, the broadcast is about to find nobody waiting exactly if the
      handler got the mutex between the command and the lock. */
  lemma BroadcastMissesIffOvertaken(states: seq<State>, k: nat)
    requires IsRun(false, states) && k < |states| && states[k].listener == StateSet
    ensures !HasWaited(states[k]) <==> exists j :: 0 <= j < k && Overtaken(states[j])
  {
    hide Inv, Step, RaceInv;
    RunRace(states, k);
    RunInv(false, states, k - 1);
    AboutToBroadcast(states[k - 1], states[k], OvertakenBy(states, k));
  }

  /** The wake-up is lost: the API thread sleeps although the broadcast is over. */
  predicate LostWakeUp(s: State) {
    PastBroadcast(s) && s.api == Asleep
  }

  /** Commanding first: in every run, a sleeping thread has lost its wake-up exactly if the handler
      got the mutex between the command and the lock. */
  lemma SleepsInVainIffOvertaken(states: seq<State>, k: nat)
    requires IsRun(false, states) && k < |states| && states[k].api == Asleep
    ensures LostWakeUp(states[k]) <==> exists j :: 0 <= j < k && Overtaken(states[j])
  {
    RunRace(states, k);
    assert !Overtaken(states[k]);
  }

  /** A run in which the event is handled between the command and the lock. */
  function LosingRun(): seq<State> {
    [ State(Begin, Listening, Nobody, false, false, false, None),
      State(Commanded, Listening, Nobody, true, false, false, None),
      State(Commanded, Handling, Nobody, true, false, false, None),
      State(Commanded, Holding, TheListener, true, false, false, None),
      State(Commanded, StateSet, TheListener, true, true, false, None),
      State(Commanded, HasBroadcast, TheListener, true, true, false, None),
      State(Commanded, Idle, Nobody, true, true, false, None),
      State(ReadyToWait, Idle, TheApi, true, true, false, None),
      State(Asleep, Idle, Nobody, true, true, false, None) ]
  }

  /** A wake-up can be lost exactly when the command is given before the mutex is taken. */
  lemma LostExactlyWhenCommandComesFirst(lockFirst: bool)
    ensures (exists s :: Reachable(lockFirst, s) && LostWakeUp(s)) <==> !lockFirst
  {
    if lockFirst {
      forall s | Reachable(lockFirst, s) ensures !LostWakeUp(s) {
        BroadcastFindsTheWaiter(s);
      }
    } else {
      var run := LosingRun();
      assert IsRun(false, run);
      assert Reachable(false, run[|run| - 1]) && LostWakeUp(run[|run| - 1]);
    }
  }
}
