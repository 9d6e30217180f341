/**
 The event listener of the FM controller: driver events arrive in batches and act on the controller.

 The listener is modelled alone, between two actions of the API thread.  The driver's answers to
 frequency queries are a function of how many have been made.
 */
module FmEvents {
  import opened Wrappers
  import opened Folds

  datatype FmState = FM_OFF | FM_OFF_IN_PROGRESS | FM_ON_IN_PROGRESS | FM_ON
    | FM_TUNE_IN_PROGRESS | SEEK_IN_PROGRESS | SCAN_IN_PROGRESS

  const READY_EVENT: int := 0
  const TUNE_EVENT: int := 1
  const RT_EVENT: int := 5
  const PS_EVENT: int := 6
  const RDS_AVAL_EVENT: int := 12
  const SRCH_LIST_EVENT: int := 14
  const AF_LIST_EVENT: int := 15
  const DISABLED_EVENT: int := 18
  const RDS_GRP_MASK_REQ_EVENT: int := 19
  const AF_JMP_EVENT: int := 22

  datatype Cond = TurnOn | TuneCompl | SeekCompl | ScanCompl

  /** Calls into the driver, and broadcasts on the condition variables. */
  datatype Call = SetAudioPath | SetCalibration | SetRdsMask(mask: int) | ReadAfList | ReadLowerBand
    | Broadcast(cond: Cond) | Close

  /** `queries` counts the frequency queries; -1 stands for no descriptor and for no frequency. */
  datatype State = State(
    fm: FmState,
    fd: int,
    prevFreq: int,
    afEnabled: bool,
    rt: bool,
    ps: bool,
    afJump: bool,
    rdsSupport: bool,
    queries: nat,
    calls: seq<Call>)

  type Tuner = nat -> int

  // ---------------------------------------------------------------------------------------
  // What one event does
  // ---------------------------------------------------------------------------------------

  /** `GetChannel`: the frequency, and the state after the query. */
  predicate CanQuery(s: State) {
    s.fm != FM_OFF && s.fm != FM_ON_IN_PROGRESS
  }

  function Channel(s: State, tuner: Tuner): int {
    if CanQuery(s) then tuner(s.queries) else -1
  }

  function Queried(s: State): State {
    if CanQuery(s) then s.(queries := s.queries + 1) else s
  }

  /** The operation in progress ends: the state returns to FM_ON and the waiting thread is woken. */
  function Ends(s: State, cond: Cond): State {
    s.(fm := FM_ON, calls := s.calls + [Broadcast(cond)])
  }

  function Tuned(s: State, tuner: Tuner): State {
    var freq := Channel(s, tuner);
    var jumps := s.fm == FM_ON && s.afEnabled && freq != s.prevFreq && s.prevFreq > 0;
    var t := Queried(s).(prevFreq := freq, afJump := s.afJump || jumps);
    match s.fm
    case FM_TUNE_IN_PROGRESS => Ends(t, TuneCompl)
    case SEEK_IN_PROGRESS => Ends(t, SeekCompl)
    case _ => t
  }

  function Disabled(s: State): State {
    s.(fm := FM_OFF, fd := -1,
       calls := s.calls + [Close, Broadcast(TuneCompl), Broadcast(ScanCompl), Broadcast(SeekCompl)])
  }

  /** READY_EVENT: the audio path, the calibration except on one chip, and the power-up broadcast. */
  function ReadyCalls(rome: bool): seq<Call> {
    if rome then [SetAudioPath, Broadcast(TurnOn)] else [SetAudioPath, SetCalibration, Broadcast(TurnOn)]
  }

  /** The effect of one event; all others are logged only. */
  function Handle(rome: bool, tuner: Tuner, s: State, event: int): State {
    if event == READY_EVENT then
      s.(fm := FM_ON, calls := s.calls + ReadyCalls(rome))
    else if event == TUNE_EVENT then Tuned(s, tuner)
    else if event == RT_EVENT then s.(rt := true)
    else if event == PS_EVENT then s.(ps := true)
    else if event == RDS_AVAL_EVENT then s.(rdsSupport := true)
    else if event == SRCH_LIST_EVENT then (if s.fm == SCAN_IN_PROGRESS then Ends(s, ScanCompl) else s)
    else if event == AF_LIST_EVENT then s.(calls := s.calls + [ReadAfList, ReadLowerBand])
    else if event == DISABLED_EVENT then Disabled(s)
    else if event == RDS_GRP_MASK_REQ_EVENT then
      if CanQuery(s) && s.fm != FM_OFF_IN_PROGRESS then s.(calls := s.calls + [SetRdsMask(0)]) else s
    else if event == AF_JMP_EVENT then Queried(s).(prevFreq := Channel(s, tuner))
    else s
  }

  function Handler(rome: bool, tuner: Tuner): (State, int) -> State {
    (s: State, event: int) => Handle(rome, tuner, s, event)
  }

  // ---------------------------------------------------------------------------------------
  // Streams
  // ---------------------------------------------------------------------------------------

  /** A stream up to and including its first DISABLED_EVENT. */
  function UpToDisabled(events: seq<int>): seq<int> {
    if events == [] then []
    else if events[0] == DISABLED_EVENT then [events[0]]
    else [events[0]] + UpToDisabled(events[1..])
  }

  lemma UpToCons(x: int, rest: seq<int>)
    ensures UpToDisabled([x] + rest) == if x == DISABLED_EVENT then [x] else [x] + UpToDisabled(rest)
  {
    assert ([x] + rest)[1..] == rest;
  }

  lemma {:induction false} UpToStops(a: seq<int>, b: seq<int>)
    requires DISABLED_EVENT in a
    ensures UpToDisabled(a + b) == UpToDisabled(a)
    decreases |a|
  {
    var x, rest := a[0], a[1..];
    assert a == [x] + rest && a + b == [x] + (rest + b);
    UpToCons(x, rest);
    UpToCons(x, rest + b);
    if x != DISABLED_EVENT {
      UpToStops(rest, b);
    }
  }

  lemma {:induction false} UpToGoesOn(a: seq<int>, b: seq<int>)
    requires DISABLED_EVENT !in a
    ensures UpToDisabled(a + b) == a + UpToDisabled(b)
    decreases |a|
  {
    hide UpToDisabled;
    if a == [] {
      assert a + b == b && a + UpToDisabled(b) == UpToDisabled(b);
    } else {
      var x, rest := a[0], a[1..];
      FirstAhead(a, b);
      UpToCons(x, rest + b);
      UpToGoesOn(rest, b);
      FirstAhead(a, UpToDisabled(b));
    }
  }

  lemma FirstAhead(a: seq<int>, b: seq<int>)
    requires a != []
    ensures a + b == [a[0]] + (a[1..] + b)
  {
  }

  lemma UpToAppend(a: seq<int>, b: seq<int>)
    ensures UpToDisabled(a + b) == if DISABLED_EVENT in a then UpToDisabled(a) else a + UpToDisabled(b)
    ensures DISABLED_EVENT !in a ==> UpToDisabled(a) == a
  {
    if DISABLED_EVENT in a {
      UpToStops(a, b);
    } else {
      UpToGoesOn(a, b);
      UpToGoesOn(a, []);
      assert a + [] == a;
    }
  }

  // ---------------------------------------------------------------------------------------
  // The two loops of the listener
  // ---------------------------------------------------------------------------------------

  /** One batch, event by event; false once a DISABLED_EVENT has been handled, which ends it. */
  function RunBatch(f: (State, int) -> State, s: State, batch: seq<int>): (State, bool)
    decreases |batch|
  {
    if batch == [] then (s, true)
    else if batch[0] == DISABLED_EVENT then (f(s, batch[0]), false)
    else RunBatch(f, f(s, batch[0]), batch[1..])
  }

  /** Batch after batch, until one ends the loop. */
  function RunBatches(f: (State, int) -> State, s: State, batches: seq<seq<int>>): (State, bool)
    decreases |batches|
  {
    if batches == [] then (s, true)
    else
      var (t, goesOn) := RunBatch(f, s, batches[0]);
      if goesOn then RunBatches(f, t, batches[1..]) else (t, false)
  }

  /** The batches read before the cancellation flag is found set; it is looked at before each. */
  function BeforeCancel(batches: seq<seq<int>>, canceled: nat -> bool, from: nat): seq<seq<int>>
    requires from <= |batches|
    decreases |batches| - from
  {
    if from == |batches| || canceled(from) then [] else [batches[from]] + BeforeCancel(batches, canceled, from + 1)
  }

  lemma {:induction false} BatchIsFold(f: (State, int) -> State, s: State, batch: seq<int>)
    ensures RunBatch(f, s, batch) == (Fold(f, s, UpToDisabled(batch)), DISABLED_EVENT !in batch)
    decreases |batch|
  {
    if batch != [] {
      var x, rest := batch[0], batch[1..];
      assert batch == [x] + rest;
      UpToCons(x, rest);
      if x == DISABLED_EVENT {
        assert Fold(f, s, [x]) == Fold(f, f(s, x), [x][1..]);
      } else {
        BatchIsFold(f, f(s, x), rest);
        FoldCons(f, s, x, UpToDisabled(rest));
      }
    }
  }

  /** The nested loops handle the concatenated stream up to its first DISABLED_EVENT. */
  lemma {:induction false} BatchesAreOneStream(f: (State, int) -> State, s: State, batches: seq<seq<int>>)
    ensures RunBatches(f, s, batches) == (Fold(f, s, UpToDisabled(Concat(batches))), DISABLED_EVENT !in Concat(batches))
    decreases |batches|
  {
    if batches != [] {
      hide UpToDisabled, RunBatch;
      var first, rest := batches[0], Concat(batches[1..]);
      BatchIsFold(f, s, first);
      UpToAppend(first, rest);
      if DISABLED_EVENT !in first {
        BatchesAreOneStream(f, RunBatch(f, s, first).0, batches[1..]);
        FoldAppend(f, s, first, UpToDisabled(rest));
      }
    }
  }

  class Controller {
    const rome: bool
    const tuner: Tuner
    var curFmState: FmState
    var fdDriver: int
    var prevFreq: int
    var afEnabled: bool
    var isRtEventReceived: bool
    var isPsEventReceived: bool
    var isAfJumpReceived: bool
    var isRdsSupport: bool
    var queries: nat
    var calls: seq<Call>

    ghost function Abstract(): State
      reads this
    {
      State(curFmState, fdDriver, prevFreq, afEnabled, isRtEventReceived, isPsEventReceived,
            isAfJumpReceived, isRdsSupport, queries, calls)
    }

    constructor (rome: bool, tuner: Tuner)
      ensures this.rome == rome && this.tuner == tuner
      ensures Abstract() == State(FM_OFF, -1, -1, false, false, false, false, false, 0, [])
    {
      this.rome, this.tuner := rome, tuner;
      curFmState, fdDriver, prevFreq, afEnabled := FM_OFF, -1, -1, false;
      isRtEventReceived, isPsEventReceived, isAfJumpReceived, isRdsSupport := false, false, false, false;
      queries, calls := 0, [];
    }

    /** `GetChannel` */
    method GetChannel() returns (freq: int)
      modifies `queries
      ensures freq == Channel(old(Abstract()), tuner) && Abstract() == Queried(old(Abstract()))
    {
      freq := -1;
      if curFmState != FM_OFF && curFmState != FM_ON_IN_PROGRESS {
        freq := tuner(queries);
        queries := queries + 1;
      }
    }

    /** `handle_enabled_event` */
    method HandleEnabled()
      modifies this
      ensures Abstract() == Handle(rome, tuner, old(Abstract()), READY_EVENT)
    {
      calls := calls + [SetAudioPath];
      if !rome {
        calls := calls + [SetCalibration];
      }
      curFmState := FM_ON;
      calls := calls + [Broadcast(TurnOn)];
    }

    /** `handle_tuned_event` */
    method HandleTuned()
      modifies this
      ensures Abstract() == Tuned(old(Abstract()), tuner)
    {
      var freq := GetChannel();
      match curFmState {
        case FM_ON =>
          if afEnabled && freq != prevFreq && prevFreq > 0 {
            isAfJumpReceived := true;
          }
        case FM_TUNE_IN_PROGRESS =>
          curFmState := FM_ON;
          calls := calls + [Broadcast(TuneCompl)];
        case SEEK_IN_PROGRESS =>
          curFmState := FM_ON;
          calls := calls + [Broadcast(SeekCompl)];
        case _ =>
      }
      prevFreq := freq;
    }

    /** `handle_srch_list_event` */
    method HandleSrchList()
      modifies this
      ensures Abstract() == Handle(rome, tuner, old(Abstract()), SRCH_LIST_EVENT)
    {
      if curFmState == SCAN_IN_PROGRESS {
        curFmState := FM_ON;
        calls := calls + [Broadcast(ScanCompl)];
      }
    }

    /** `handle_disabled_event` */
    method HandleDisabled()
      modifies this
      ensures Abstract() == Disabled(old(Abstract()))
    {
      curFmState := FM_OFF;
      calls := calls + [Close];
      fdDriver := -1;
      calls := calls + [Broadcast(TuneCompl)];
      calls := calls + [Broadcast(ScanCompl)];
      calls := calls + [Broadcast(SeekCompl)];
    }

    /** `handle_rds_grp_mask_req_event` */
    method HandleRdsGrpMaskReq()
      modifies this
      ensures Abstract() == Handle(rome, tuner, old(Abstract()), RDS_GRP_MASK_REQ_EVENT)
    {
      if curFmState != FM_OFF && curFmState != FM_OFF_IN_PROGRESS && curFmState != FM_ON_IN_PROGRESS {
        calls := calls + [SetRdsMask(0)];
      }
    }

    /** `process_radio_events`: false on DISABLED_EVENT only. */
    method ProcessRadioEvent(event: int) returns (ret: bool)
      modifies this
      ensures Abstract() == Handle(rome, tuner, old(Abstract()), event) && ret == (event != DISABLED_EVENT)
    {
      ret := true;
      if event == READY_EVENT {
        HandleEnabled();
      } else if event == TUNE_EVENT {
        HandleTuned();
      } else if event == RT_EVENT {
        isRtEventReceived := true;
      } else if event == PS_EVENT {
        isPsEventReceived := true;
      } else if event == RDS_AVAL_EVENT {
        isRdsSupport := true;
      } else if event == SRCH_LIST_EVENT {
        HandleSrchList();
      } else if event == AF_LIST_EVENT {
        calls := calls + [ReadAfList, ReadLowerBand];
      } else if event == DISABLED_EVENT {
        HandleDisabled();
        ret := false;
      } else if event == RDS_GRP_MASK_REQ_EVENT {
        HandleRdsGrpMaskReq();
      } else if event == AF_JMP_EVENT {
        var freq := GetChannel();
        prevFreq := freq;
      }
    }

    /** The inner loop of `handle_events`: one batch. */
    method HandleBatch(batch: seq<int>) returns (status: bool)
      modifies this
      ensures (Abstract(), status) == RunBatch(Handler(rome, tuner), old(Abstract()), batch)
    {
      hide Handle;
      status := true;
      var i: nat := 0;
      ghost var f, start := Handler(rome, tuner), Abstract();
      assert batch[0..] == batch;
      while i < |batch|
        invariant i <= |batch| && status
        invariant RunBatch(f, start, batch) == RunBatch(f, Abstract(), batch[i..])
      {
        assert batch[i..][1..] == batch[i + 1..];
        status := ProcessRadioEvent(batch[i]);
        i := i + 1;
        if !status {
          return;
        }
      }
    }

    /** `handle_events` on the batches that `get_buffer` returns, a failed read being an empty batch;
        `canceled` is the cancellation flag as the listener finds it before each. */
    method HandleEvents(batches: seq<seq<int>>, canceled: nat -> bool)
      modifies this
      ensures Abstract() == RunBatches(Handler(rome, tuner), old(Abstract()), BeforeCancel(batches, canceled, 0)).0
      ensures Abstract() ==
        Fold(Handler(rome, tuner), old(Abstract()), UpToDisabled(Concat(BeforeCancel(batches, canceled, 0))))
    {
      hide Handle, RunBatch, UpToDisabled;
      var status, b: nat := true, 0;
      ghost var f, start, all := Handler(rome, tuner), Abstract(), BeforeCancel(batches, canceled, 0);
      while status && b < |batches| && !canceled(b)
        invariant b <= |batches|
        invariant RunBatches(f, start, all).0
          == if status then RunBatches(f, Abstract(), BeforeCancel(batches, canceled, b)).0 else Abstract()
      {
        assert BeforeCancel(batches, canceled, b)[1..] == BeforeCancel(batches, canceled, b + 1);
        status := HandleBatch(batches[b]);
        b := b + 1;
      }
      BatchesAreOneStream(f, start, all);
    }
  }

  /** The first DISABLED_EVENT ends the stream. */
  lemma StopsAt(events: seq<int>, i: nat)
    requires i < |events| && DISABLED_EVENT !in events[..i]
    ensures events[i] == DISABLED_EVENT ==> UpToDisabled(events) == events[..i + 1] && DISABLED_EVENT in events
  {
    if events[i] == DISABLED_EVENT {
      hide UpToDisabled;
      var head, tail := events[..i], events[i + 1..];
      SplitAt(events, i);
      UpToGoesOn(head, [DISABLED_EVENT] + tail);
      UpToCons(DISABLED_EVENT, tail);
    }
  }

  lemma SplitAt(events: seq<int>, i: nat)
    requires i < |events|
    ensures events == events[..i] + ([events[i]] + events[i + 1..])
    ensures events[..i + 1] == events[..i] + [events[i]]
  {
  }

  // ---------------------------------------------------------------------------------------
  // Properties of whole streams
  // ---------------------------------------------------------------------------------------

  /** How events are batched does not matter to the nested loops, and once one batch ends them no later
      batch does. */
  lemma BatchingDoesNotMatter(f: (State, int) -> State, s: State, one: seq<seq<int>>, two: seq<seq<int>>, more: seq<seq<int>>)
    requires Concat(one) == Concat(two)
    ensures RunBatches(f, s, one) == RunBatches(f, s, two)
    ensures DISABLED_EVENT in Concat(one) ==> RunBatches(f, s, one + more) == RunBatches(f, s, two)
  {
    hide RunBatches, UpToDisabled;
    BatchesAreOneStream(f, s, one);
    BatchesAreOneStream(f, s, two);
    BatchesAreOneStream(f, s, one + more);
    ConcatAppend(one, more);
    UpToAppend(Concat(one), Concat(more));
  }

  /** Once a stream contains a DISABLED_EVENT, the listener leaves the controller off, with the driver
      closed as its last driver call and every waiting operation woken. */
  lemma EndsOff(rome: bool, tuner: Tuner, s: State, events: seq<int>)
    requires DISABLED_EVENT in events
    ensures var t := Fold(Handler(rome, tuner), s, UpToDisabled(events));
      && t.fm == FM_OFF && t.fd == -1
      && |t.calls| >= 4 && t.calls[|t.calls| - 4..] == [Close, Broadcast(TuneCompl), Broadcast(ScanCompl), Broadcast(SeekCompl)]
  {
    FirstDisabled(events);
    var i: nat :| i < |events| && events[i] == DISABLED_EVENT && DISABLED_EVENT !in events[..i];
    StopsAt(events, i);
    SplitAt(events, i);
    FoldSnoc(Handler(rome, tuner), s, events[..i], events[i]);
  }

  lemma {:induction false} FirstDisabled(events: seq<int>)
    requires DISABLED_EVENT in events
    ensures exists i: nat :: i < |events| && events[i] == DISABLED_EVENT && DISABLED_EVENT !in events[..i]
  {
    if events[|events| - 1] != DISABLED_EVENT || DISABLED_EVENT in events[..|events| - 1] {
      var front := events[..|events| - 1];
      assert events == front + [events[|events| - 1]];
      FirstDisabled(front);
      var i: nat :| i < |front| && front[i] == DISABLED_EVENT && DISABLED_EVENT !in front[..i];
      assert events[..i] == front[..i];
    }
  }

  /** The condition on which the API thread waits for an operation to end. */
  function CondOf(fm: FmState): Option<Cond> {
    match fm
    case FM_TUNE_IN_PROGRESS => Some(TuneCompl)
    case SEEK_IN_PROGRESS => Some(SeekCompl)
    case SCAN_IN_PROGRESS => Some(ScanCompl)
    case _ => None
  }

  /** The calls that one event makes, and those of a stream. */
  function CallsOf(rome: bool, s: State, event: int): seq<Call> {
    if event == READY_EVENT then
      [SetAudioPath] + (if rome then [] else [SetCalibration]) + [Broadcast(TurnOn)]
    else if event == TUNE_EVENT then
      if s.fm == FM_TUNE_IN_PROGRESS then [Broadcast(TuneCompl)]
      else if s.fm == SEEK_IN_PROGRESS then [Broadcast(SeekCompl)]
      else []
    else if event == SRCH_LIST_EVENT then
      if s.fm == SCAN_IN_PROGRESS then [Broadcast(ScanCompl)] else []
    else if event == AF_LIST_EVENT then [ReadAfList, ReadLowerBand]
    else if event == DISABLED_EVENT then [Close, Broadcast(TuneCompl), Broadcast(ScanCompl), Broadcast(SeekCompl)]
    else if event == RDS_GRP_MASK_REQ_EVENT
         && s.fm != FM_OFF && s.fm != FM_OFF_IN_PROGRESS && s.fm != FM_ON_IN_PROGRESS then [SetRdsMask(0)]
    else []
  }

  function CallsOver(rome: bool, tuner: Tuner, s: State, events: seq<int>): seq<Call>
    decreases |events|
  {
    if events == [] then []
    else CallsOf(rome, s, events[0]) + CallsOver(rome, tuner, Handle(rome, tuner, s, events[0]), events[1..])
  }

  lemma TunedCalls(tuner: Tuner, s: State)
    ensures Tuned(s, tuner).calls ==
      if s.fm == FM_TUNE_IN_PROGRESS || s.fm == SEEK_IN_PROGRESS then s.calls + [Broadcast(CondOf(s.fm).value)] else s.calls
  {
    hide Channel;
    match s.fm
    case FM_TUNE_IN_PROGRESS =>
    case SEEK_IN_PROGRESS =>
    case _ =>
  }

  lemma HandleCalls(rome: bool, tuner: Tuner, s: State, event: int)
    ensures Handle(rome, tuner, s, event).calls == s.calls + CallsOf(rome, s, event)
  {
    hide Tuned, ReadyCalls, Ends, Disabled, Queried, Channel;
    NoCalls(s.calls);
    if event == TUNE_EVENT {
      TunedCalls(tuner, s);
    } else if event == READY_EVENT {
      ReadyCallsAre(rome);
    } else if event == SRCH_LIST_EVENT {
      EndsCalls(s, ScanCompl);
    } else if event == DISABLED_EVENT {
      DisabledCalls(s);
    } else if event == AF_JMP_EVENT {
      QueriedFm(s);
    }
  }

  lemma NoCalls(calls: seq<Call>)
    ensures calls + [] == calls
  {
  }

  lemma EndsCalls(s: State, cond: Cond)
    ensures Ends(s, cond).calls == s.calls + [Broadcast(cond)]
  {
  }

  lemma DisabledCalls(s: State)
    ensures Disabled(s).calls == s.calls + [Close, Broadcast(TuneCompl), Broadcast(ScanCompl), Broadcast(SeekCompl)]
  {
  }

  lemma ReadyCallsAre(rome: bool)
    ensures ReadyCalls(rome) == [SetAudioPath] + (if rome then [] else [SetCalibration]) + [Broadcast(TurnOn)]
  {
  }

  lemma {:induction false} FoldCalls(rome: bool, tuner: Tuner, s: State, events: seq<int>)
    ensures Fold(Handler(rome, tuner), s, events).calls == s.calls + CallsOver(rome, tuner, s, events)
    decreases |events|
  {
    if events != [] {
      hide Handle, CallsOf;
      var t := Handle(rome, tuner, s, events[0]);
      HandleCalls(rome, tuner, s, events[0]);
      FoldCalls(rome, tuner, t, events[1..]);
    }
  }

  /** The events that end an operation and wake its thread. */
  predicate EndsAloud(fm: FmState, event: int) {
    || event == DISABLED_EVENT
    || (event == TUNE_EVENT && (fm == FM_TUNE_IN_PROGRESS || fm == SEEK_IN_PROGRESS))
    || (event == SRCH_LIST_EVENT && fm == SCAN_IN_PROGRESS)
  }

  predicate Settled(fm: FmState) {
    fm == FM_ON || fm == FM_OFF
  }

  /** Which event broadcasts on which condition. */
  lemma BroadcastsOf(rome: bool, s: State, event: int, c: Cond)
    requires c != TurnOn
    ensures Broadcast(c) in CallsOf(rome, s, event)
       <==> event == DISABLED_EVENT || (CondOf(s.fm) == Some(c) && EndsAloud(s.fm, event))
  {
    var calls := CallsOf(rome, s, event);
    if event == DISABLED_EVENT {
      assert calls[1] == Broadcast(TuneCompl) && calls[2] == Broadcast(ScanCompl) && calls[3] == Broadcast(SeekCompl);
    } else if EndsAloud(s.fm, event) {
      assert calls == [Broadcast(CondOf(s.fm).value)];
    }
  }

  lemma FmAfter(rome: bool, tuner: Tuner, s: State, event: int)
    ensures var fm := Handle(rome, tuner, s, event).fm;
      fm == if event == READY_EVENT then FM_ON
            else if event == DISABLED_EVENT then FM_OFF
            else if EndsAloud(s.fm, event) then FM_ON
            else s.fm
  {
    hide Tuned, Disabled, Queried, Channel;
    if event == TUNE_EVENT {
      TunedFm(tuner, s);
    } else if event == DISABLED_EVENT {
      DisabledFm(s);
    } else if event == AF_JMP_EVENT {
      QueriedFm(s);
    }
  }

  lemma QueriedFm(s: State)
    ensures Queried(s).fm == s.fm && Queried(s).calls == s.calls
  {
  }

  lemma DisabledFm(s: State)
    ensures Disabled(s).fm == FM_OFF
  {
  }

  lemma TunedFm(tuner: Tuner, s: State)
    ensures Tuned(s, tuner).fm == if EndsAloud(s.fm, TUNE_EVENT) then FM_ON else s.fm
  {
    match s.fm
    case FM_TUNE_IN_PROGRESS =>
    case SEEK_IN_PROGRESS =>
    case _ =>
  }

  /** An event that ends an operation wakes its thread, with one exception: READY_EVENT sets the state
      to FM_ON without waking anybody who tunes, seeks or scans. */
  lemma OnlyReadyForgetsTheWaiter(rome: bool, tuner: Tuner, s: State, event: int)
    requires CondOf(s.fm).Some?
    ensures Handle(rome, tuner, s, event).fm != s.fm && Broadcast(CondOf(s.fm).value) !in CallsOf(rome, s, event)
       <==> event == READY_EVENT
  {
    hide Handle, CallsOf;
    FmAfter(rome, tuner, s, event);
    BroadcastsOf(rome, s, event, CondOf(s.fm).value);
  }

  /** What one event does to an operation in progress. */
  lemma OneEventOfOperation(rome: bool, tuner: Tuner, s: State, event: int)
    requires CondOf(s.fm).Some?
    ensures var t, woken := Handle(rome, tuner, s, event), Broadcast(CondOf(s.fm).value) in CallsOf(rome, s, event);
      if event == READY_EVENT then Settled(t.fm) && !woken
      else if EndsAloud(s.fm, event) then Settled(t.fm) && woken
      else t.fm == s.fm && !woken
  {
    hide Handle, CallsOf;
    FmAfter(rome, tuner, s, event);
    BroadcastsOf(rome, s, event, CondOf(s.fm).value);
  }

  /** With no operation in progress, only DISABLED_EVENT broadcasts to its thread. */
  lemma OneEventSettled(rome: bool, tuner: Tuner, s: State, event: int, c: Cond)
    requires Settled(s.fm) && c != TurnOn
    ensures Settled(Handle(rome, tuner, s, event).fm)
    ensures Broadcast(c) in CallsOf(rome, s, event) <==> event == DISABLED_EVENT
  {
    hide Handle, CallsOf;
    FmAfter(rome, tuner, s, event);
    BroadcastsOf(rome, s, event, c);
  }

  lemma {:induction false} SettledStream(rome: bool, tuner: Tuner, s: State, events: seq<int>, c: Cond)
    requires Settled(s.fm) && c != TurnOn
    ensures Settled(Fold(Handler(rome, tuner), s, events).fm)
    ensures Broadcast(c) in CallsOver(rome, tuner, s, events) <==> DISABLED_EVENT in events
    decreases |events|
  {
    if events != [] {
      hide Handle, CallsOf;
      OneEventSettled(rome, tuner, s, events[0], c);
      SettledStream(rome, tuner, Handle(rome, tuner, s, events[0]), events[1..], c);
    }
  }

  /** A READY_EVENT comes before any event that ends the operation with a wake-up. */
  predicate ReadyFirst(fm: FmState, events: seq<int>) {
    exists i :: 0 <= i < |events| && events[i] == READY_EVENT && forall j :: 0 <= j < i ==> !EndsAloud(fm, events[j])
  }

  lemma ReadyFirstCons(fm: FmState, events: seq<int>)
    requires events != []
    ensures ReadyFirst(fm, events) <==>
      events[0] == READY_EVENT || (!EndsAloud(fm, events[0]) && ReadyFirst(fm, events[1..]))
  {
    var rest := events[1..];
    if ReadyFirst(fm, events) && events[0] != READY_EVENT {
      var i :| 0 <= i < |events| && events[i] == READY_EVENT && forall j :: 0 <= j < i ==> !EndsAloud(fm, events[j]);
      assert rest[i - 1] == READY_EVENT;
      assert forall j :: 0 <= j < i - 1 ==> rest[j] == events[j + 1];
    }
    if !EndsAloud(fm, events[0]) && ReadyFirst(fm, rest) {
      var i :| 0 <= i < |rest| && rest[i] == READY_EVENT && forall j :: 0 <= j < i ==> !EndsAloud(fm, rest[j]);
      assert events[i + 1] == READY_EVENT;
      assert forall j :: 0 < j < i + 1 ==> events[j] == rest[j - 1];
    }
  }

  /** Over any stream, an operation has ended with its thread never woken exactly if READY_EVENT came
      before every event that would have ended it with a wake-up, and no DISABLED_EVENT came at all. */
  lemma {:induction false} EndsSilentlyIff(rome: bool, tuner: Tuner, s: State, events: seq<int>)
    requires CondOf(s.fm).Some?
    ensures Fold(Handler(rome, tuner), s, events).fm != s.fm
         && Broadcast(CondOf(s.fm).value) !in CallsOver(rome, tuner, s, events)
       <==> ReadyFirst(s.fm, events) && DISABLED_EVENT !in events
    decreases |events|
  {
    if events != [] {
      hide Handle, CallsOf, ReadyFirst;
      var e, rest, c := events[0], events[1..], CondOf(s.fm).value;
      var t := Handle(rome, tuner, s, e);
      assert events == [e] + rest;
      ReadyFirstCons(s.fm, events);
      OneEventOfOperation(rome, tuner, s, e);
      if t.fm == s.fm {
        EndsSilentlyIff(rome, tuner, t, rest);
      } else {
        SettledStream(rome, tuner, t, rest, c);
      }
    } else {
      assert !ReadyFirst(s.fm, events);
    }
  }

  // ---------------------------------------------------------------------------------------
  // Known frequency and flags over streams
  // ---------------------------------------------------------------------------------------

  /** The controller's state before event i of a stream: READY_EVENT turns it on, DISABLED_EVENT off, and
      an event that ends the operation in progress returns it to on. */
  function FmAt(fm: FmState, events: seq<int>, i: nat): FmState
    requires i <= |events|
  {
    if i == 0 then fm else FmNext(FmAt(fm, events, i - 1), events[i - 1])
  }

  function FmNext(fm: FmState, event: int): FmState {
    if event == READY_EVENT then FM_ON
    else if event == DISABLED_EVENT then FM_OFF
    else if event == TUNE_EVENT && (fm == FM_TUNE_IN_PROGRESS || fm == SEEK_IN_PROGRESS) then FM_ON
    else if event == SRCH_LIST_EVENT && fm == SCAN_IN_PROGRESS then FM_ON
    else fm
  }

  /** Event i asks the driver for the frequency, and the driver is there to answer. */
  predicate Asks(event: int) {
    event == TUNE_EVENT || event == AF_JMP_EVENT
  }

  predicate IsAnswered(fm: FmState, events: seq<int>, i: nat)
    requires i < |events|
  {
    Asks(events[i]) && FmAt(fm, events, i) != FM_OFF && FmAt(fm, events, i) != FM_ON_IN_PROGRESS
  }

  /** How many of the first i events are answered. */
  function AnsweredUpTo(fm: FmState, events: seq<int>, i: nat): nat
    requires i <= |events|
  {
    if i == 0 then 0 else AnsweredUpTo(fm, events, i - 1) + if IsAnswered(fm, events, i - 1) then 1 else 0
  }

  /** The frequency that event i brings, -1 without an answer. */
  function FreqAt(s: State, tuner: Tuner, events: seq<int>, i: nat): int
    requires i < |events|
  {
    if IsAnswered(s.fm, events, i) then tuner(s.queries + AnsweredUpTo(s.fm, events, i)) else -1
  }

  /** The frequency known before event i: what the last event that asked has brought. */
  function KnownAt(s: State, tuner: Tuner, events: seq<int>, i: nat): int
    requires i <= |events|
  {
    if i == 0 then s.prevFreq
    else if Asks(events[i - 1]) then FreqAt(s, tuner, events, i - 1)
    else KnownAt(s, tuner, events, i - 1)
  }

  /** Event i is a tune event that ends no operation and brings another frequency than the positive one
      known before it. */
  ghost predicate JumpsAt(s: State, tuner: Tuner, events: seq<int>, i: nat) {
    && i < |events| && events[i] == TUNE_EVENT && FmAt(s.fm, events, i) == FM_ON
    && KnownAt(s, tuner, events, i) > 0 && FreqAt(s, tuner, events, i) != KnownAt(s, tuner, events, i)
  }

  /** What a stream has made of the controller. */
  ghost predicate AfterStream(s: State, tuner: Tuner, t: State, events: seq<int>) {
    var n := |events|;
    && t.fm == FmAt(s.fm, events, n) && t.afEnabled == s.afEnabled
    && t.queries == s.queries + AnsweredUpTo(s.fm, events, n)
    && t.prevFreq == KnownAt(s, tuner, events, n)
    && (t.afJump <==> s.afJump || (s.afEnabled && exists i: nat :: JumpsAt(s, tuner, events, i)))
  }

  /** More events behind a stream do not change what happens in it. */
  lemma {:induction false} FmAtPrefix(fm: FmState, front: seq<int>, event: int, i: nat)
    requires i <= |front|
    ensures FmAt(fm, front + [event], i) == FmAt(fm, front, i)
    ensures AnsweredUpTo(fm, front + [event], i) == AnsweredUpTo(fm, front, i)
  {
    if i > 0 {
      FmAtPrefix(fm, front, event, i - 1);
    }
  }

  lemma FreqAtPrefix(s: State, tuner: Tuner, front: seq<int>, event: int, i: nat)
    requires i < |front|
    ensures FreqAt(s, tuner, front + [event], i) == FreqAt(s, tuner, front, i)
  {
    FmAtPrefix(s.fm, front, event, i);
  }

  lemma {:induction false} KnownAtPrefix(s: State, tuner: Tuner, front: seq<int>, event: int, i: nat)
    requires i <= |front|
    ensures KnownAt(s, tuner, front + [event], i) == KnownAt(s, tuner, front, i)
  {
    if i > 0 {
      hide FreqAt;
      KnownAtPrefix(s, tuner, front, event, i - 1);
      FreqAtPrefix(s, tuner, front, event, i - 1);
    }
  }

  lemma JumpsAtPrefix(s: State, tuner: Tuner, front: seq<int>, event: int, i: nat)
    requires i < |front|
    ensures JumpsAt(s, tuner, front + [event], i) <==> JumpsAt(s, tuner, front, i)
  {
    hide FmAt, KnownAt, FreqAt;
    FmAtPrefix(s.fm, front, event, i);
    FreqAtPrefix(s, tuner, front, event, i);
    KnownAtPrefix(s, tuner, front, event, i);
  }

  /** A stream jumps in its last event or before. */
  lemma JumpsSnoc(s: State, tuner: Tuner, front: seq<int>, event: int)
    ensures (exists i: nat :: JumpsAt(s, tuner, front + [event], i))
       <==> (exists i: nat :: JumpsAt(s, tuner, front, i)) || JumpsAt(s, tuner, front + [event], |front|)
  {
    if i: nat :| JumpsAt(s, tuner, front + [event], i) {
      if i < |front| {
        hide JumpsAt;
        JumpsAtPrefix(s, tuner, front, event, i);
      }
    }
    if i: nat :| JumpsAt(s, tuner, front, i) {
      JumpsAtPrefix(s, tuner, front, event, i);
    }
  }

  /** What one event does, in terms of the controller's state when it comes. */
  ghost predicate OneEvent(tuner: Tuner, s: State, t: State, event: int) {
    var answered := Asks(event) && s.fm != FM_OFF && s.fm != FM_ON_IN_PROGRESS;
    var freq := if answered then tuner(s.queries) else -1;
    && t.afEnabled == s.afEnabled
    && t.fm == FmNext(s.fm, event)
    && t.queries == s.queries + (if answered then 1 else 0)
    && t.prevFreq == (if Asks(event) then freq else s.prevFreq)
    && (t.afJump <==>
          s.afJump || (s.afEnabled && event == TUNE_EVENT && s.fm == FM_ON && s.prevFreq > 0 && freq != s.prevFreq))
  }

  lemma EndsKeeps(s: State, cond: Cond)
    ensures var t := Ends(s, cond);
      && t.fm == FM_ON && t.afEnabled == s.afEnabled && t.queries == s.queries
      && t.prevFreq == s.prevFreq && t.afJump == s.afJump && SameFlags(s, t)
  {
  }

  lemma DisabledKeeps(s: State)
    ensures var t := Disabled(s);
      && t.fm == FM_OFF && t.afEnabled == s.afEnabled && t.queries == s.queries
      && t.prevFreq == s.prevFreq && t.afJump == s.afJump
  {
  }

  lemma TunedOnce(tuner: Tuner, s: State)
    ensures OneEvent(tuner, s, Tuned(s, tuner), TUNE_EVENT)
  {
    hide Ends;
    var freq := Channel(s, tuner);
    var t := Queried(s).(prevFreq := freq,
      afJump := s.afJump || (s.fm == FM_ON && s.afEnabled && freq != s.prevFreq && s.prevFreq > 0));
    EndsKeeps(t, TuneCompl);
    EndsKeeps(t, SeekCompl);
  }

  lemma JumpedOnce(tuner: Tuner, s: State)
    ensures OneEvent(tuner, s, Queried(s).(prevFreq := Channel(s, tuner)), AF_JMP_EVENT)
  {
  }

  lemma HandledOnce(rome: bool, tuner: Tuner, s: State, event: int)
    ensures OneEvent(tuner, s, Handle(rome, tuner, s, event), event)
  {
    hide Tuned, Queried, ReadyCalls, CanQuery, Channel, Disabled, Ends;
    DisabledKeeps(s);
    EndsKeeps(s, ScanCompl);
    if event == TUNE_EVENT {
      hide OneEvent;
      TunedOnce(tuner, s);
    } else if event == AF_JMP_EVENT {
      hide OneEvent;
      JumpedOnce(tuner, s);
    }
  }

  lemma FmAtSnoc(fm: FmState, front: seq<int>, event: int)
    ensures FmAt(fm, front + [event], |front| + 1) == FmNext(FmAt(fm, front, |front|), event)
    ensures AnsweredUpTo(fm, front + [event], |front| + 1) == AnsweredUpTo(fm, front, |front|)
      + if Asks(event) && FmAt(fm, front, |front|) != FM_OFF && FmAt(fm, front, |front|) != FM_ON_IN_PROGRESS then 1 else 0
  {
    FmAtPrefix(fm, front, event, |front|);
  }

  /** The last event of a stream. */
  lemma LastEvent(s: State, tuner: Tuner, front: seq<int>, event: int)
    ensures var all, n, fm := front + [event], |front|, FmAt(s.fm, front, |front|);
      var freq := if Asks(event) && fm != FM_OFF && fm != FM_ON_IN_PROGRESS then tuner(s.queries + AnsweredUpTo(s.fm, front, n)) else -1;
      var known := KnownAt(s, tuner, front, n);
      && KnownAt(s, tuner, all, n + 1) == (if Asks(event) then freq else known)
      && (JumpsAt(s, tuner, all, n) <==> event == TUNE_EVENT && fm == FM_ON && known > 0 && freq != known)
  {
    FmAtPrefix(s.fm, front, event, |front|);
    KnownAtPrefix(s, tuner, front, event, |front|);
  }

  lemma OneMoreEvent(tuner: Tuner, s: State, t: State, t': State, front: seq<int>, event: int)
    requires AfterStream(s, tuner, t, front) && OneEvent(tuner, t, t', event)
    ensures AfterStream(s, tuner, t', front + [event])
  {
    FmAtSnoc(s.fm, front, event);
    LastEvent(s, tuner, front, event);
    JumpsSnoc(s, tuner, front, event);
    hide FmAt, AnsweredUpTo, KnownAt, JumpsAt;
  }

  /** Over any stream from any state, the known frequency is what the last tune or AF-jump event brought,
      and the AF-jump flag rises exactly if AF is enabled and some tune event that ends no operation brings
      another frequency than the positive one known before it. */
  lemma {:induction false} JumpFlagIsExact(rome: bool, tuner: Tuner, s: State, events: seq<int>)
    ensures AfterStream(s, tuner, Fold(Handler(rome, tuner), s, events), events)
    decreases |events|
  {
    if events != [] {
      hide Handle, AfterStream, OneEvent;
      var front, last := events[..|events| - 1], events[|events| - 1];
      assert events == front + [last];
      var t := Fold(Handler(rome, tuner), s, front);
      JumpFlagIsExact(rome, tuner, s, front);
      FoldSnoc(Handler(rome, tuner), s, front, last);
      HandledOnce(rome, tuner, t, last);
      OneMoreEvent(tuner, s, t, Handle(rome, tuner, t, last), front, last);
    } else {
      assert forall i: nat :: !JumpsAt(s, tuner, events, i);
    }
  }

  /** Over any stream the RDS flags rise exactly with their events, AF stays as it is, and only a
      DISABLED_EVENT gives up the driver. */
  lemma {:induction false} FlagsFollowEvents(rome: bool, tuner: Tuner, s: State, events: seq<int>)
    ensures var t := Fold(Handler(rome, tuner), s, events);
      && (t.rt <==> s.rt || RT_EVENT in events)
      && (t.ps <==> s.ps || PS_EVENT in events)
      && (t.rdsSupport <==> s.rdsSupport || RDS_AVAL_EVENT in events)
      && t.afEnabled == s.afEnabled
      && t.fd == if DISABLED_EVENT in events then -1 else s.fd
    decreases |events|
  {
    if events != [] {
      hide Handle;
      var e, rest := events[0], events[1..];
      assert events == [e] + rest;
      FlagsOfOne(rome, tuner, s, e);
      FlagsFollowEvents(rome, tuner, Handle(rome, tuner, s, e), rest);
    }
  }

  lemma FlagsOfOne(rome: bool, tuner: Tuner, s: State, event: int)
    ensures var t := Handle(rome, tuner, s, event);
      && (t.rt <==> s.rt || event == RT_EVENT) && (t.ps <==> s.ps || event == PS_EVENT)
      && (t.rdsSupport <==> s.rdsSupport || event == RDS_AVAL_EVENT)
      && t.afEnabled == s.afEnabled && t.fd == if event == DISABLED_EVENT then -1 else s.fd
  {
    hide Channel, Queried, Tuned, ReadyCalls, CanQuery;
    if event == TUNE_EVENT {
      TunedFlags(tuner, s);
    } else if event == AF_JMP_EVENT {
      QueriedFlags(s);
    }
  }

  ghost predicate SameFlags(s: State, t: State) {
    t.rt == s.rt && t.ps == s.ps && t.rdsSupport == s.rdsSupport && t.afEnabled == s.afEnabled && t.fd == s.fd
  }

  lemma QueriedFlags(s: State)
    ensures SameFlags(s, Queried(s))
  {
  }

  lemma TunedFlags(tuner: Tuner, s: State)
    ensures SameFlags(s, Tuned(s, tuner))
  {
    hide Channel, Queried, Ends;
    QueriedFlags(s);
    var freq := Channel(s, tuner);
    var t := Queried(s).(prevFreq := freq,
      afJump := s.afJump || (s.fm == FM_ON && s.afEnabled && freq != s.prevFreq && s.prevFreq > 0));
    EndsKeeps(t, TuneCompl);
    EndsKeeps(t, SeekCompl);
  }

  /** The listener reads batches up to the first one before which it finds itself cancelled. */
  lemma {:induction false} BeforeCancelIs(batches: seq<seq<int>>, canceled: nat -> bool, from: nat, n: nat)
    requires from <= n <= |batches| && (forall i :: from <= i < n ==> !canceled(i)) && (n < |batches| ==> canceled(n))
    ensures BeforeCancel(batches, canceled, from) == batches[from..n]
    decreases n - from
  {
    if from < n {
      BeforeCancelIs(batches, canceled, from + 1, n);
    }
  }
}
