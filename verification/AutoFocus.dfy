/**
 Auto focus in the camera HAL: requests, cancellations, focus events from the driver and the
 notifications that the application gets.

 What the camera interface and the notifier answer is a parameter; the focus distances are one value.
 */
module AutoFocus {
  import opened Wrappers
  import opened Folds

  datatype FocusMode = OFF | AUTO | INFINITY | MACRO | FIXED | EDOF | CONTINUOUS_VIDEO | CONTINUOUS_PICTURE | MANUAL

  datatype AfState =
    | INACTIVE | PASSIVE_SCAN | PASSIVE_FOCUSED | ACTIVE_SCAN
    | FOCUSED_LOCKED | NOT_FOCUSED_LOCKED | PASSIVE_UNFOCUSED

  /** `cam_auto_focus_data_t` */
  datatype FocusData = FocusData(mode: FocusMode, state: AfState, isDepth: bool, needFlush: bool, focusedFrame: nat,
    distance: int)

  /** What happens, in order: a request from the application, a CAMERA_MSG_FOCUS notification, which
      answers a request or comes unasked in a continuous mode, and a CAMERA_MSG_FOCUS_MOVE. */
  datatype Entry = Requested | Focus(success: bool, asked: bool) | Move(scanning: bool)

  datatype State = State(active: bool, log: seq<Entry>)

  predicate Single(mode: FocusMode) {
    mode == AUTO || mode == MACRO
  }

  predicate Continuous(mode: FocusMode) {
    mode == CONTINUOUS_VIDEO || mode == CONTINUOUS_PICTURE
  }

  /** The lens has left auto focus for infinity. */
  predicate AtInfinity(d: FocusData) {
    d.mode == INFINITY && d.state == INACTIVE
  }

  predicate Done(d: FocusData) {
    d.state == FOCUSED_LOCKED || d.state == NOT_FOCUSED_LOCKED
  }

  predicate Passive(d: FocusData) {
    d.state == PASSIVE_SCAN || d.state == PASSIVE_FOCUSED || d.state == PASSIVE_UNFOCUSED
  }

  // ---------------------------------------------------------------------------------------
  // Specification of the three operations
  // ---------------------------------------------------------------------------------------

  /** A request starts a scan in the scanning modes and is answered at once in the others. */
  function AfterRequest(s: State, mode: FocusMode, rc: int): State {
    if Single(mode) || Continuous(mode) then State(rc == 0, s.log + [Requested])
    else State(s.active && rc == 0, s.log + [Requested, Focus(true, true)])
  }

  function AfterCancel(s: State, mode: FocusMode): State {
    if Single(mode) || Continuous(mode) then s.(active := false) else s
  }

  /** An event that a continuous mode hides: a passive one during a request, or a depth scan. */
  predicate Hidden(d: FocusData, active: bool, depthCallbacks: bool) {
    (Passive(d) && active) || (!depthCallbacks && d.isDepth && d.state == PASSIVE_SCAN)
  }

  /** The notifications that an event causes. */
  function Notifications(mode: FocusMode, d: FocusData, active: bool, depthCallbacks: bool): seq<Entry> {
    if Single(mode) then
      if active && (AtInfinity(d) || Done(d)) then [Focus(d.state != NOT_FOCUSED_LOCKED, true)] else []
    else if Continuous(mode) then
      if AtInfinity(d) then [Focus(false, active)]
      else if Hidden(d, active, depthCallbacks) then []
      else if Done(d) || d.state == PASSIVE_FOCUSED || d.state == PASSIVE_UNFOCUSED then
        [Focus(d.state == FOCUSED_LOCKED || d.state == PASSIVE_FOCUSED, active), Move(false)]
      else [Move(d.state == PASSIVE_SCAN)]
    else []
  }

  /** An event reports a focus that is not only a scan. */
  predicate ReportsFocus(mode: FocusMode, d: FocusData, active: bool, depthCallbacks: bool) {
    if Single(mode) then active && Done(d)
    else Continuous(mode) && !Hidden(d, active, depthCallbacks)
         && (Done(d) || d.state == PASSIVE_FOCUSED || d.state == PASSIVE_UNFOCUSED)
  }

  /** The focus distances that such an event hands on, and the old snapshot frames that it flushes if there
      is a zero-shutter-lag channel. */
  function Distances(mode: FocusMode, d: FocusData, active: bool, depthCallbacks: bool): seq<int> {
    if ReportsFocus(mode, d, active, depthCallbacks) then [d.distance] else []
  }

  function Flushes(mode: FocusMode, d: FocusData, active: bool, depthCallbacks: bool, zsl: bool): seq<nat> {
    if ReportsFocus(mode, d, active, depthCallbacks) && zsl && d.needFlush then [d.focusedFrame] else []
  }

  /** The notifications depend on the kind of the mode only. */
  lemma ByKindOfMode(mode: FocusMode, d: FocusData, active: bool, depthCallbacks: bool)
    ensures Notifications(mode, d, active, depthCallbacks) ==
      if Single(mode) then Notifications(AUTO, d, active, depthCallbacks)
      else if Continuous(mode) then Notifications(CONTINUOUS_VIDEO, d, active, depthCallbacks)
      else []
    ensures ReportsFocus(mode, d, active, depthCallbacks) <==>
      if Single(mode) then ReportsFocus(AUTO, d, active, depthCallbacks)
      else Continuous(mode) && ReportsFocus(CONTINUOUS_VIDEO, d, active, depthCallbacks)
  {
  }

  /** A continuous mode, case by case. */
  lemma ContinuousCases(d: FocusData, active: bool, depthCallbacks: bool)
    ensures Notifications(CONTINUOUS_VIDEO, d, active, depthCallbacks) ==
      if AtInfinity(d) then [Focus(false, active)]
      else if Hidden(d, active, depthCallbacks) then []
      else if ReportsFocus(CONTINUOUS_VIDEO, d, active, depthCallbacks) then
        [Focus(d.state == FOCUSED_LOCKED || d.state == PASSIVE_FOCUSED, active), Move(d.state == PASSIVE_SCAN)]
      else [Move(d.state == PASSIVE_SCAN)]
    ensures AtInfinity(d) || Hidden(d, active, depthCallbacks) ==> !ReportsFocus(CONTINUOUS_VIDEO, d, active, depthCallbacks)
    ensures !AtInfinity(d) && !Hidden(d, active, depthCallbacks) ==>
      (ReportsFocus(CONTINUOUS_VIDEO, d, active, depthCallbacks) <==> Done(d) || d.state == PASSIVE_FOCUSED || d.state == PASSIVE_UNFOCUSED)
  {
  }

  lemma TwoEntries(log: seq<Entry>, a: Entry, b: Entry)
    ensures log + [a] + [b] == log + [a, b] && log + [] == log
  {
  }

  /** In auto and macro mode, with a request active: a locked state answers it, with success exactly for
      FOCUSED_LOCKED, and so does a lens gone to infinity, with success; nothing else does. */
  ghost predicate InSingleMode(d: FocusData, active: bool, after: bool, log: seq<Entry>, log': seq<Entry>,
      distances: seq<int>, distances': seq<int>) {
    if active && d.state == FOCUSED_LOCKED then log' == log + [Focus(true, true)] && !after && distances' == distances + [d.distance]
    else if active && d.state == NOT_FOCUSED_LOCKED then
      log' == log + [Focus(false, true)] && !after && distances' == distances + [d.distance]
    else if active && d.mode == INFINITY && d.state == INACTIVE then
      log' == log + [Focus(true, true)] && !after && distances' == distances
    else log' == log && after == active && distances' == distances
  }

  /** In the continuous modes: a lens gone to infinity is reported as a failure; during a request the
      passive states are hidden, and so is a depth scan; a scan is a movement; every other state that
      tells about the focus is reported, together with the end of the movement. */
  ghost predicate InContinuousMode(d: FocusData, depthCallbacks: bool, active: bool, after: bool,
      log: seq<Entry>, log': seq<Entry>, distances: seq<int>, distances': seq<int>) {
    match d.state
    case FOCUSED_LOCKED =>
      log' == log + [Focus(true, active), Move(false)] && !after && distances' == distances + [d.distance]
    case NOT_FOCUSED_LOCKED =>
      log' == log + [Focus(false, active), Move(false)] && !after && distances' == distances + [d.distance]
    case PASSIVE_FOCUSED =>
      after == active && if active then log' == log && distances' == distances
                         else log' == log + [Focus(true, false), Move(false)] && distances' == distances + [d.distance]
    case PASSIVE_UNFOCUSED =>
      after == active && if active then log' == log && distances' == distances
                         else log' == log + [Focus(false, false), Move(false)] && distances' == distances + [d.distance]
    case PASSIVE_SCAN =>
      after == active && distances' == distances
      && log' == if active || (d.isDepth && !depthCallbacks) then log else log + [Move(true)]
    case ACTIVE_SCAN => log' == log + [Move(false)] && after == active && distances' == distances
    case INACTIVE =>
      distances' == distances && if d.mode == INFINITY then log' == log + [Focus(false, active)] && !after
                                 else log' == log + [Move(false)] && after == active
  }

  lemma SingleModeEvent(d: FocusData, active: bool, depthCallbacks: bool, log: seq<Entry>, distances: seq<int>)
    ensures InSingleMode(d, active, active && !Done(d) && !AtInfinity(d), log, log + Notifications(AUTO, d, active, depthCallbacks),
                         distances, distances + Distances(AUTO, d, active, depthCallbacks))
  {
  }

  lemma ContinuousModeEvent(d: FocusData, active: bool, depthCallbacks: bool, log: seq<Entry>, distances: seq<int>)
    ensures InContinuousMode(d, depthCallbacks, active, active && !Done(d) && !AtInfinity(d),
                             log, log + Notifications(CONTINUOUS_VIDEO, d, active, depthCallbacks),
                             distances, distances + Distances(CONTINUOUS_VIDEO, d, active, depthCallbacks))
  {
  }

  function AfterEvent(s: State, secondary: bool, mode: FocusMode, d: FocusData, depthCallbacks: bool): State {
    if secondary then s
    else State(s.active && !Done(d) && !(AtInfinity(d) && (Single(mode) || Continuous(mode))),
               s.log + Notifications(mode, d, s.active, depthCallbacks))
  }

  class Hal {
    const secondary: bool
    const depthCallbacks: bool
    /** What the notifier answers to the n-th entry of the log. */
    const answers: nat -> int
    var mActiveAF: bool
    var log: seq<Entry>
    var flushes: seq<nat>
    var distances: seq<int>

    ghost function Abstract(): State
      reads this
    {
      State(mActiveAF, log)
    }

    constructor (secondary: bool, depthCallbacks: bool, answers: nat -> int)
      ensures this.secondary == secondary && this.depthCallbacks == depthCallbacks && this.answers == answers
      ensures Abstract() == State(false, []) && flushes == [] && distances == []
    {
      this.secondary, this.depthCallbacks, this.answers := secondary, depthCallbacks, answers;
      mActiveAF, log, flushes, distances := false, [], [], [];
    }

    /** The return code of the last notification since the log had a length, 0 if there is none. */
    ghost function LastAnswer(since: nat): int
      reads `log
    {
      if |log| <= since then 0 else answers(|log| - 1)
    }

    /** `autoFocus`; `answer` is what `do_auto_focus` or the notifier returns. */
    method RequestFocus(mode: FocusMode, answer: int) returns (rc: int)
      modifies `mActiveAF, `log
      ensures rc == answer && Abstract() == AfterRequest(old(Abstract()), mode, answer)
      ensures log == old(log) +
        if mode == AUTO || mode == MACRO || mode == CONTINUOUS_VIDEO || mode == CONTINUOUS_PICTURE then [Requested]
        else [Requested, Focus(true, true)]
    {
      log := log + [Requested];
      match mode {
        case AUTO | MACRO | CONTINUOUS_VIDEO | CONTINUOUS_PICTURE =>
          mActiveAF := true;
          rc := answer;
        case _ =>
          log := log + [Focus(true, true)];
          rc := answer;
      }
      if rc != 0 {
        mActiveAF := false;
      }
    }

    /** `cancelAutoFocus` */
    method CancelFocus(mode: FocusMode, answer: int) returns (rc: int)
      modifies `mActiveAF, `log
      ensures rc == (if Single(mode) || Continuous(mode) then answer else 0) && Abstract() == AfterCancel(old(Abstract()), mode)
    {
      rc := 0;
      match mode {
        case AUTO | MACRO | CONTINUOUS_VIDEO | CONTINUOUS_PICTURE =>
          mActiveAF := false;
          rc := answer;
        case _ =>
      }
    }

    /** The start of `stopPreview`. */
    method StopPreview()
      modifies `mActiveAF, `log
      ensures Abstract() == old(Abstract()).(active := false)
    {
      mActiveAF := false;
    }

    /** The distances handed on and the flush, which both kinds of modes do before they notify. */
    method ReportFocus(d: FocusData, zsl: bool)
      modifies `distances, `flushes
      ensures distances == old(distances) + [d.distance]
      ensures flushes == old(flushes) + if zsl && d.needFlush then [d.focusedFrame] else []
    {
      distances := distances + [d.distance];
      if zsl && d.needFlush {
        flushes := flushes + [d.focusedFrame];
      }
    }

    /** The part of `processAutoFocusEvent` for the auto and macro modes. */
    method SingleEvent(d: FocusData, zsl: bool) returns (rc: int)
      modifies this
      ensures flushes == old(flushes) + Flushes(AUTO, d, old(mActiveAF), depthCallbacks, zsl)
      ensures distances == old(distances) + Distances(AUTO, d, old(mActiveAF), depthCallbacks)
      ensures rc == LastAnswer(|old(log)|)
      ensures log == old(log) + Notifications(AUTO, d, old(mActiveAF), depthCallbacks)
      ensures mActiveAF == (old(mActiveAF) && !AtInfinity(d))
    {
      rc := 0;
      if !mActiveAF {
        return;
      }
      if d.mode == INFINITY && d.state == INACTIVE {
        rc := answers(|log|);
        log := log + [Focus(true, mActiveAF)];
        mActiveAF := false;
        return;
      }
      if d.state == PASSIVE_SCAN || d.state == PASSIVE_FOCUSED || d.state == PASSIVE_UNFOCUSED {
        return;
      }
      if d.state == ACTIVE_SCAN || d.state == INACTIVE {
        return;
      }
      ReportFocus(d, zsl);
      rc := answers(|log|);
      log := log + [Focus(d.state == FOCUSED_LOCKED, mActiveAF)];
    }

    /** The part of `processAutoFocusEvent` for the continuous modes. */
    method ContinuousEvent(d: FocusData, zsl: bool) returns (rc: int)
      modifies this
      ensures flushes == old(flushes) + Flushes(CONTINUOUS_VIDEO, d, old(mActiveAF), depthCallbacks, zsl)
      ensures distances == old(distances) + Distances(CONTINUOUS_VIDEO, d, old(mActiveAF), depthCallbacks)
      ensures rc == LastAnswer(|old(log)|)
      ensures log == old(log) + Notifications(CONTINUOUS_VIDEO, d, old(mActiveAF), depthCallbacks)
      ensures mActiveAF == (old(mActiveAF) && !AtInfinity(d))
    {
      hide Notifications, ReportsFocus;
      ContinuousCases(d, mActiveAF, depthCallbacks);
      TwoEntries(log, Focus(d.state == PASSIVE_FOCUSED || d.state == FOCUSED_LOCKED, mActiveAF), Move(d.state == PASSIVE_SCAN));
      rc := 0;
      if d.mode == INFINITY && d.state == INACTIVE {
        rc := answers(|log|);
        log := log + [Focus(false, mActiveAF)];
        mActiveAF := false;
        return;
      }
      if (d.state == PASSIVE_FOCUSED || d.state == PASSIVE_UNFOCUSED || d.state == PASSIVE_SCAN) && mActiveAF {
        return;
      }
      if !depthCallbacks && d.isDepth && d.state == PASSIVE_SCAN {
        return;
      }
      if d.state == PASSIVE_FOCUSED || d.state == PASSIVE_UNFOCUSED || d.state == FOCUSED_LOCKED || d.state == NOT_FOCUSED_LOCKED {
        ReportFocus(d, zsl);
        rc := answers(|log|);
        log := log + [Focus(d.state == PASSIVE_FOCUSED || d.state == FOCUSED_LOCKED, mActiveAF)];
      }
      rc := answers(|log|);
      log := log + [Move(d.state == PASSIVE_SCAN)];
    }

    /** `processAutoFocusEvent`; `zsl`: there is a zero-shutter-lag channel and the mode is on. */
    method ProcessEvent(mode: FocusMode, d: FocusData, zsl: bool) returns (rc: int)
      modifies this
      ensures flushes == old(flushes) + if secondary then [] else Flushes(mode, d, old(mActiveAF), depthCallbacks, zsl)
      ensures distances == old(distances) + if secondary then [] else Distances(mode, d, old(mActiveAF), depthCallbacks)
      ensures rc == LastAnswer(|old(log)|)
      ensures Abstract() == AfterEvent(old(Abstract()), secondary, mode, d, depthCallbacks)
      ensures !secondary && (mode == AUTO || mode == MACRO) ==>
        InSingleMode(d, old(mActiveAF), mActiveAF, old(log), log, old(distances), distances)
      ensures !secondary && (mode == CONTINUOUS_VIDEO || mode == CONTINUOUS_PICTURE) ==>
        InContinuousMode(d, depthCallbacks, old(mActiveAF), mActiveAF, old(log), log, old(distances), distances)
      ensures secondary || mode == OFF || mode == INFINITY || mode == FIXED || mode == EDOF || mode == MANUAL ==>
        log == old(log) && distances == old(distances) && flushes == old(flushes)
    {
      SingleModeEvent(d, mActiveAF, depthCallbacks, log, distances);
      ContinuousModeEvent(d, mActiveAF, depthCallbacks, log, distances);
      hide Notifications, ReportsFocus, InSingleMode, InContinuousMode;
      ByKindOfMode(mode, d, mActiveAF, depthCallbacks);
      rc := 0;
      if secondary {
        return;
      }
      match mode {
        case AUTO | MACRO => rc := SingleEvent(d, zsl);
        case CONTINUOUS_VIDEO | CONTINUOUS_PICTURE => rc := ContinuousEvent(d, zsl);
        case _ =>
      }
      if d.state == FOCUSED_LOCKED || d.state == NOT_FOCUSED_LOCKED {
        mActiveAF := false;
      }
    }
  }

  // ---------------------------------------------------------------------------------------
  // Runs
  // ---------------------------------------------------------------------------------------

  /** The calls that touch the auto-focus state; the mode may change from call to call. */
  datatype Action =
    | Request(mode: FocusMode, rc: int)
    | Cancel(mode: FocusMode)
    | Event(mode: FocusMode, d: FocusData, depthCallbacks: bool)
    | Stop

  function Apply(s: State, a: Action): State {
    match a
    case Request(mode, rc) => AfterRequest(s, mode, rc)
    case Cancel(mode) => AfterCancel(s, mode)
    case Event(mode, d, depthCallbacks) => AfterEvent(s, false, mode, d, depthCallbacks)
    case Stop => s.(active := false)
  }

  function Count(log: seq<Entry>, counts: Entry -> bool): nat {
    if log == [] then 0 else Count(log[..|log| - 1], counts) + if counts(log[|log| - 1]) then 1 else 0
  }

  function IsRequest(): Entry -> bool { (e: Entry) => e.Requested? }
  function IsFocus(): Entry -> bool { (e: Entry) => e.Focus? }
  function IsUnasked(): Entry -> bool { (e: Entry) => e.Focus? && !e.asked }

  lemma {:induction false} CountAppend(a: seq<Entry>, b: seq<Entry>, counts: Entry -> bool)
    ensures Count(a + b, counts) == Count(a, counts) + Count(b, counts)
    decreases |b|
  {
    if b == [] {
      assert a + b == a;
    } else {
      var n := |b| - 1;
      assert (a + b)[..|a| + n] == a + b[..n];
      CountAppend(a, b[..n], counts);
    }
  }

  lemma CountShort(a: Entry, b: Entry, counts: Entry -> bool)
    ensures Count([a], counts) == if counts(a) then 1 else 0
    ensures Count([a, b], counts) == (if counts(a) then 1 else 0) + (if counts(b) then 1 else 0)
  {
    assert [a, b][..1] == [a];
    assert Count([a][..0], counts) == 0;
  }

  /** The answers given, with one more owed while a request is active, never exceed the requests. */
  ghost predicate NeverOverAnswered(s: State) {
    Count(s.log, IsFocus()) + (if s.active then 1 else 0) <= Count(s.log, IsRequest()) + Count(s.log, IsUnasked())
  }

  /** What one call adds to the log, and how the flag moves. */
  function Added(s: State, a: Action): seq<Entry> {
    match a
    case Request(mode, _) => if Single(mode) || Continuous(mode) then [Requested] else [Requested, Focus(true, true)]
    case Event(mode, d, depthCallbacks) => Notifications(mode, d, s.active, depthCallbacks)
    case _ => []
  }

  /** One call adds at most two entries, and every answer among them is paid for by a request, by the
      active flag or by being unasked. */
  lemma AddedIsPaidFor(s: State, a: Action)
    ensures var added, after := Added(s, a), Apply(s, a);
      && after.log == s.log + added
      && Count(added, IsFocus()) + (if after.active then 1 else 0)
      <= Count(added, IsRequest()) + Count(added, IsUnasked()) + (if s.active then 1 else 0)
  {
    var added := Added(s, a);
    if |added| > 0 {
      var x, y := added[0], added[|added| - 1];
      CountShort(x, y, IsRequest());
      CountShort(x, y, IsFocus());
      CountShort(x, y, IsUnasked());
      assert added == if |added| == 1 then [x] else [x, y];
    }
  }

  lemma ApplyKeeps(s: State, a: Action)
    requires NeverOverAnswered(s)
    ensures NeverOverAnswered(Apply(s, a))
  {
    hide Added, Apply, Count;
    AddedIsPaidFor(s, a);
    CountAppend(s.log, Added(s, a), IsRequest());
    CountAppend(s.log, Added(s, a), IsFocus());
    CountAppend(s.log, Added(s, a), IsUnasked());
  }

  /** In every run and at every point of it, FOCUS notifications plus one if a request is active do
      not exceed the requests plus the notifications that continuous modes sent unasked. */
  lemma {:induction false} AnswersNeverExceedRequests(s: State, run: seq<Action>)
    requires NeverOverAnswered(s)
    ensures NeverOverAnswered(Fold(Apply, s, run))
    decreases |run|
  {
    if run != [] {
      ApplyKeeps(s, run[0]);
      AnswersNeverExceedRequests(Apply(s, run[0]), run[1..]);
    }
  }

  predicate OutsideContinuous(a: Action) {
    a.Stop? || !Continuous(a.mode)
  }

  /** Outside the continuous modes one call adds nothing unasked. */
  lemma AddedIsAsked(s: State, a: Action)
    requires OutsideContinuous(a)
    ensures Apply(s, a).log == s.log + Added(s, a) && Count(Added(s, a), IsUnasked()) == 0
  {
    var added := Added(s, a);
    if |added| > 0 {
      CountShort(added[0], added[|added| - 1], IsUnasked());
      assert added == if |added| == 1 then [added[0]] else [added[0], added[|added| - 1]];
    }
  }

  lemma {:induction false} NothingUnasked(s: State, run: seq<Action>)
    requires Count(s.log, IsUnasked()) == 0 && forall a :: a in run ==> OutsideContinuous(a)
    ensures Count(Fold(Apply, s, run).log, IsUnasked()) == 0
    decreases |run|
  {
    if run != [] {
      hide Apply, Added, Count, Notifications, OutsideContinuous;
      AddedIsAsked(s, run[0]);
      CountAppend(s.log, Added(s, run[0]), IsUnasked());
      NothingUnasked(Apply(s, run[0]), run[1..]);
    }
  }

  /** Outside the continuous modes the bound needs no allowance. */
  lemma OneAnswerPerRequest(run: seq<Action>)
    requires forall a :: a in run ==> OutsideContinuous(a)
    ensures var s := Fold(Apply, State(false, []), run);
      Count(s.log, IsFocus()) + (if s.active then 1 else 0) <= Count(s.log, IsRequest())
  {
    AnswersNeverExceedRequests(State(false, []), run);
    NothingUnasked(State(false, []), run);
  }

  /** After a cancel in auto or macro mode nothing is notified, and nothing changes, until the next
      request or a continuous mode. */
  lemma SilenceAfterCancel(s: State, mode: FocusMode, run: seq<Action>)
    requires Single(mode) && forall a :: a in run ==> !a.Request? && OutsideContinuous(a)
    ensures Fold(Apply, s, [Cancel(mode)] + run) == s.(active := false)
  {
    FoldCons(Apply, s, Cancel(mode), run);
    Silence(s.(active := false), run);
  }

  lemma {:induction false} Silence(s: State, run: seq<Action>)
    requires !s.active && forall a :: a in run ==> !a.Request? && OutsideContinuous(a)
    ensures Fold(Apply, s, run) == s
    decreases |run|
  {
    if run != [] {
      assert OutsideContinuous(run[0]) && !run[0].Request?;
      assert Apply(s, run[0]) == s;
      Silence(s, run[1..]);
    }
  }

  // ---------------------------------------------------------------------------------------
  // What the entries of a run mean
  // ---------------------------------------------------------------------------------------

  /** What an entry says about the call that made it. */
  ghost predicate Tells(e: Entry, a: Action, active: bool) {
    match a
    case Request(mode, _) =>
      e == Requested || (e == Focus(true, true)
        && mode != AUTO && mode != MACRO && mode != CONTINUOUS_VIDEO && mode != CONTINUOUS_PICTURE)
    case Event(mode, d, _) =>
      (match e
       case Requested => false
       case Focus(success, asked) =>
         asked == active
         && (success <==> d.state == FOCUSED_LOCKED || d.state == PASSIVE_FOCUSED
                          || (d.mode == INFINITY && d.state == INACTIVE && (mode == AUTO || mode == MACRO)))
       case Move(scanning) => scanning <==> d.state == PASSIVE_SCAN)
    case _ => false
  }

  lemma AddedTells(s: State, a: Action)
    ensures Apply(s, a).log == s.log + Added(s, a)
    ensures forall e :: e in Added(s, a) ==> Tells(e, a, s.active)
  {
    forall e | e in Added(s, a) ensures Tells(e, a, s.active) {
      assert e == Added(s, a)[0] || e == Added(s, a)[1];
    }
  }

  /** In every run, every entry was made by some call, and tells about it: a focus notification made by an
      event reports success exactly for a focused state, or for a lens gone to infinity in auto or macro
      mode, and answers a request exactly if one was active. */
  lemma {:induction false} EveryEntryTells(s: State, run: seq<Action>, i: nat) returns (k: nat)
    requires |s.log| <= i < |Fold(Apply, s, run).log|
    ensures k < |run| && Tells(Fold(Apply, s, run).log[i], run[k], Fold(Apply, s, run[..k]).active)
    ensures |Fold(Apply, s, run[..k]).log| <= i < |Fold(Apply, s, run[..k + 1]).log|
    decreases |run|
  {
    hide Apply, Added, Tells;
    var front, a := run[..|run| - 1], run[|run| - 1];
    assert run == front + [a];
    var before := Fold(Apply, s, front);
    FoldSnoc(Apply, s, front, a);
    AddedTells(before, a);
    if i < |before.log| {
      k := EveryEntryTells(s, front, i);
      assert run[..k] == front[..k] && run[..k + 1] == front[..k + 1];
    } else {
      k := |run| - 1;
      assert run[..k + 1] == run;
      assert Fold(Apply, s, run).log[i] == Added(before, a)[i - |before.log|];
    }
  }

  /** A request that the camera takes up. */
  predicate StartsScan(a: Action) {
    a.Request? && a.rc == 0
    && (a.mode == AUTO || a.mode == MACRO || a.mode == CONTINUOUS_VIDEO || a.mode == CONTINUOUS_PICTURE)
  }

  /** A call after which no request is active. */
  predicate EndsScan(a: Action) {
    match a
    case Request(_, rc) => rc != 0
    case Cancel(mode) => mode == AUTO || mode == MACRO || mode == CONTINUOUS_VIDEO || mode == CONTINUOUS_PICTURE
    case Event(mode, d, _) =>
      || d.state == FOCUSED_LOCKED || d.state == NOT_FOCUSED_LOCKED
      || (d.mode == INFINITY && d.state == INACTIVE
          && (mode == AUTO || mode == MACRO || mode == CONTINUOUS_VIDEO || mode == CONTINUOUS_PICTURE))
    case Stop => true
  }

  ghost predicate StartedAt(run: seq<Action>, i: nat) {
    i < |run| && StartsScan(run[i]) && forall j :: i < j < |run| ==> !EndsScan(run[j])
  }

  lemma ActiveAfter(s: State, a: Action)
    ensures Apply(s, a).active <==> StartsScan(a) || (s.active && !EndsScan(a))
  {
  }

  /** In every run a request is active exactly if the camera took one up and nothing since then has ended
      it: no refusal, cancellation or stop, no locked state and no lens gone to infinity. */
  lemma {:induction false} ActiveIff(run: seq<Action>)
    ensures Fold(Apply, State(false, []), run).active <==> exists i: nat :: StartedAt(run, i)
    decreases |run|
  {
    if run != [] {
      hide Apply, StartsScan, EndsScan;
      var n := |run| - 1;
      var front, a := run[..n], run[n];
      assert run == front + [a];
      FoldSnoc(Apply, State(false, []), front, a);
      ActiveAfter(Fold(Apply, State(false, []), front), a);
      ActiveIff(front);
      StartedSnoc(front, a);
    }
  }

  lemma StartedSnoc(front: seq<Action>, a: Action)
    ensures (exists i: nat :: StartedAt(front + [a], i)) <==>
      StartsScan(a) || ((exists i: nat :: StartedAt(front, i)) && !EndsScan(a))
  {
    hide StartsScan, EndsScan;
    var run := front + [a];
    if i: nat :| StartedAt(run, i) {
      if i < |front| {
        assert run[|front|] == a;
        assert forall j :: i < j < |front| ==> run[j] == front[j];
        assert StartedAt(front, i);
      }
    }
    if StartsScan(a) {
      assert StartedAt(run, |front|);
    }
    if i: nat :| StartedAt(front, i) {
      if !EndsScan(a) {
        assert StartedAt(run, i);
      }
    }
  }
}
