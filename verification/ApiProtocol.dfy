/**
 The API request protocol of the camera HAL: clients that lock, post a request to the state machine
 and wait for its result on a condition variable, and the state machine that posts results, in
 every interleaving.
 */
module ApiProtocol {
  import opened Wrappers
  import opened Filters
  import opened ApiResults

  /** A client inside an API call.  `Holding`, `Requested` and `Served` clients hold `m_lock`;
      `Asleep` and `Woken` ones are inside `pthread_cond_wait`. */
  datatype Phase = Holding | Requested(evt: nat) | Asleep(evt: nat) | Woken(evt: nat) | Served(result: Result)

  predicate HoldsLock(p: Phase) {
    p.Holding? || p.Requested? || p.Served?
  }

  /** `inflight` are the requests the state machine has not answered; `posted` is the history of its
      answers and `taken` the positions in it that clients have consumed. */
  datatype State = State(
    clients: map<nat, Phase>,
    inflight: multiset<nat>,
    pending: seq<Result>,
    posted: seq<Result>,
    taken: set<nat>)

  predicate Init(s: State) {
    s == State(map[], multiset{}, [], [], {})
  }

  ghost predicate LockFree(s: State) {
    forall c :: c in s.clients ==> !HoldsLock(s.clients[c])
  }

  /** `lockAPI` */
  ghost predicate Lock(s: State, t: State, c: nat) {
    LockFree(s) && c !in s.clients && t == s.(clients := s.clients[c := Holding])
  }

  /** `processAPI` accepted by the state machine, as the first request of a lock session or after another
      one has been served. */
  ghost predicate Request(s: State, t: State, c: nat, evt: nat) {
    && c in s.clients && (s.clients[c].Holding? || s.clients[c].Served?)
    && t == s.(clients := s.clients[c := Requested(evt)], inflight := s.inflight + multiset{evt})
  }

  /** `waitAPIResult` starts by sleeping: it releases the lock without looking at the list. */
  ghost predicate Sleep(s: State, t: State, c: nat) {
    && c in s.clients && s.clients[c].Requested?
    && t == s.(clients := s.clients[c := Asleep(s.clients[c].evt)])
  }

  function WakeAll(clients: map<nat, Phase>): map<nat, Phase> {
    map c | c in clients :: if clients[c].Asleep? then Woken(clients[c].evt) else clients[c]
  }

  /** `signalAPIResult`: under the lock, a result is appended and every sleeper woken. */
  ghost predicate Signal(s: State, t: State, result: Result) {
    && LockFree(s) && result.requestApi in s.inflight
    && t == s.(clients := WakeAll(s.clients),
               inflight := s.inflight - multiset{result.requestApi},
               pending := s.pending + [result],
               posted := s.posted + [result])
  }

  /** A woken client has the lock back and scans the list: it takes the first result of its event
      or sleeps again. */
  ghost predicate Scan(s: State, t: State, c: nat) {
    && LockFree(s) && c in s.clients && s.clients[c].Woken?
    && var evt := s.clients[c].evt;
       var i := FirstFor(s.pending, evt);
       if i == |s.pending| then t == s.(clients := s.clients[c := Asleep(evt)])
       else t == s.(clients := s.clients[c := Served(s.pending[i])],
                    pending := Without(s.pending, i),
                    taken := s.taken + {OldestFor(s.posted, s.taken, evt)})
  }

  /** A sleeper may wake without a signal. */
  ghost predicate SpuriousWake(s: State, t: State, c: nat) {
    && c in s.clients && s.clients[c].Asleep?
    && t == s.(clients := s.clients[c := Woken(s.clients[c].evt)])
  }

  /** `unlockAPI`, after the wait or after a refused request. */
  ghost predicate Unlock(s: State, t: State, c: nat) {
    && c in s.clients && (s.clients[c].Holding? || s.clients[c].Served?)
    && t == s.(clients := s.clients - {c})
  }

  ghost predicate ClientStep(s: State, t: State, c: nat) {
    || Lock(s, t, c) || (exists evt :: Request(s, t, c, evt)) || Sleep(s, t, c)
    || Scan(s, t, c) || SpuriousWake(s, t, c) || Unlock(s, t, c)
  }

  ghost predicate Step(s: State, t: State) {
    (exists result :: Signal(s, t, result)) || (exists c :: ClientStep(s, t, c))
  }

  // ---------------------------------------------------------------------------------------
  // The list is what was posted minus what was taken
  // ---------------------------------------------------------------------------------------

  /** The first position not taken whose result is for an event, or the length of the history. */
  function OldestFor(posted: seq<Result>, taken: set<nat>, evt: nat): (n: nat)
    ensures n <= |posted|
    ensures forall k :: 0 <= k < n && k !in taken ==> posted[k].requestApi != evt
    ensures n < |posted| ==> n !in taken && posted[n].requestApi == evt
  {
    OldestFrom(posted, taken, evt, 0)
  }

  function OldestFrom(posted: seq<Result>, taken: set<nat>, evt: nat, from: nat): (n: nat)
    requires from <= |posted|
    ensures from <= n <= |posted|
    ensures forall k :: from <= k < n && k !in taken ==> posted[k].requestApi != evt
    ensures n < |posted| ==> n !in taken && posted[n].requestApi == evt
    decreases |posted| - from
  {
    if from == |posted| || (from !in taken && posted[from].requestApi == evt) then from
    else OldestFrom(posted, taken, evt, from + 1)
  }

  /** The results from a position on that are not taken, in posting order. */
  function RemainingFrom(posted: seq<Result>, taken: set<nat>, from: nat): seq<Result>
    requires from <= |posted|
    decreases |posted| - from
  {
    if from == |posted| then []
    else (if from in taken then [] else [posted[from]]) + RemainingFrom(posted, taken, from + 1)
  }

  function Remaining(posted: seq<Result>, taken: set<nat>): seq<Result> {
    RemainingFrom(posted, taken, 0)
  }

  lemma {:induction false} EarlierTakenIrrelevant(posted: seq<Result>, taken: set<nat>, n: nat, from: nat)
    requires n < from <= |posted|
    ensures RemainingFrom(posted, taken + {n}, from) == RemainingFrom(posted, taken, from)
    decreases |posted| - from
  {
    hide RemainingFrom;
    if from == |posted| {
      RemainingEnds(posted, taken);
      RemainingEnds(posted, taken + {n});
    } else {
      EarlierTakenIrrelevant(posted, taken, n, from + 1);
      RemainingUnfolds(posted, taken, from);
      RemainingUnfolds(posted, taken + {n}, from);
    }
  }

  lemma RemainingEnds(posted: seq<Result>, taken: set<nat>)
    ensures RemainingFrom(posted, taken, |posted|) == []
  {
  }

  lemma RemainingUnfolds(posted: seq<Result>, taken: set<nat>, from: nat)
    requires from < |posted|
    ensures RemainingFrom(posted, taken, from) ==
      if from in taken then RemainingFrom(posted, taken, from + 1)
      else [posted[from]] + RemainingFrom(posted, taken, from + 1)
  {
  }

  /** `after` is the list without its first result for an event, which is `found`. */
  ghost predicate FirstRemoved(list: seq<Result>, evt: nat, found: Option<Result>, after: seq<Result>) {
    var i := FirstFor(list, evt);
    if i == |list| then found == None else found == Some(list[i]) && after == Without(list, i)
  }

  lemma BehindFirst(x: Result, list: seq<Result>, evt: nat, found: Option<Result>, after: seq<Result>)
    requires x.requestApi != evt && FirstRemoved(list, evt, found, after)
    ensures FirstRemoved([x] + list, evt, found, [x] + after)
  {
    assert ([x] + list)[1..] == list;
    assert FirstFor([x] + list, evt) == FirstFor(list, evt) + 1;
  }

  lemma AtFirst(x: Result, list: seq<Result>)
    ensures FirstRemoved([x] + list, x.requestApi, Some(x), list)
  {
    assert Without([x] + list, 0) == list;
  }

  /** The oldest result of an event, if there is one. */
  function Posted(posted: seq<Result>, n: nat): Option<Result> {
    if n < |posted| then Some(posted[n]) else None
  }

  /** Taking the oldest result of an event removes the first one of that event from the list. */
  lemma {:induction false} TakeOldest(posted: seq<Result>, taken: set<nat>, evt: nat, from: nat)
    requires from <= |posted|
    ensures var n := OldestFrom(posted, taken, evt, from);
      FirstRemoved(RemainingFrom(posted, taken, from), evt, Posted(posted, n), RemainingFrom(posted, taken + {n}, from))
    decreases |posted| - from
  {
    hide RemainingFrom, FirstRemoved, OldestFrom;
    var n := OldestFrom(posted, taken, evt, from);
    if from == |posted| {
      RemainingEnds(posted, taken);
      NothingFirst(evt, RemainingFrom(posted, taken + {n}, from));
    } else {
      OldestUnfolds(posted, taken, evt, from);
      RemainingUnfolds(posted, taken, from);
      RemainingUnfolds(posted, taken + {n}, from);
      if n == from {
        EarlierTakenIrrelevant(posted, taken, from, from + 1);
        AtFirst(posted[from], RemainingFrom(posted, taken, from + 1));
      } else {
        TakeOldest(posted, taken, evt, from + 1);
        if from !in taken {
          BehindFirst(posted[from], RemainingFrom(posted, taken, from + 1), evt, Posted(posted, n),
                      RemainingFrom(posted, taken + {n}, from + 1));
        }
      }
    }
  }

  lemma OldestUnfolds(posted: seq<Result>, taken: set<nat>, evt: nat, from: nat)
    requires from < |posted|
    ensures OldestFrom(posted, taken, evt, from) ==
      if from !in taken && posted[from].requestApi == evt then from else OldestFrom(posted, taken, evt, from + 1)
  {
  }

  lemma NothingFirst(evt: nat, after: seq<Result>)
    ensures FirstRemoved([], evt, None, after)
  {
  }

  lemma {:induction false} PostedLast(posted: seq<Result>, taken: set<nat>, result: Result, from: nat)
    requires from <= |posted| && |posted| !in taken
    ensures RemainingFrom(posted + [result], taken, from) == RemainingFrom(posted, taken, from) + [result]
    decreases |posted| - from
  {
    if from < |posted| {
      PostedLast(posted, taken, result, from + 1);
    } else {
      assert RemainingFrom(posted + [result], taken, from + 1) == [];
    }
  }

  // ---------------------------------------------------------------------------------------
  // Counting
  // ---------------------------------------------------------------------------------------

  /** The clients in a phase. */
  function Who(clients: map<nat, Phase>, p: Phase): set<nat> {
    set c | c in clients && clients[c] == p
  }

  /** One client moves from phase p to phase q. */
  lemma WhoMoved(clients: map<nat, Phase>, c: nat, q: Phase, x: Phase)
    requires c in clients && clients[c] != q
    ensures |Who(clients[c := q], x)| ==
      |Who(clients, x)| + (if x == q then 1 else 0) - (if x == clients[c] then 1 else 0)
  {
    assert Who(clients[c := q], x) ==
      if x == q then Who(clients, x) + {c} else if x == clients[c] then Who(clients, x) - {c} else Who(clients, x);
  }

  lemma WaitingMoved(clients: map<nat, Phase>, c: nat, q: Phase, evt: nat)
    requires c in clients && clients[c] != q
    ensures forall x :: x == Requested(evt) || x == Asleep(evt) || x == Woken(evt) ==>
      |Who(clients[c := q], x)| == |Who(clients, x)| + (if x == q then 1 else 0) - (if x == clients[c] then 1 else 0)
  {
    WhoMoved(clients, c, q, Requested(evt));
    WhoMoved(clients, c, q, Asleep(evt));
    WhoMoved(clients, c, q, Woken(evt));
  }

  lemma WhoAdded(clients: map<nat, Phase>, c: nat)
    requires c !in clients
    ensures forall p :: p != Holding ==> Who(clients[c := Holding], p) == Who(clients, p)
  {
  }

  lemma WhoRemoved(clients: map<nat, Phase>, c: nat)
    requires c in clients
    ensures forall p :: p != clients[c] ==> Who(clients - {c}, p) == Who(clients, p)
  {
  }

  lemma WhoWoken(clients: map<nat, Phase>, evt: nat)
    ensures Who(WakeAll(clients), Asleep(evt)) == {}
    ensures Who(WakeAll(clients), Woken(evt)) == Who(clients, Asleep(evt)) + Who(clients, Woken(evt))
    ensures Who(WakeAll(clients), Requested(evt)) == Who(clients, Requested(evt))
  {
  }

  function Waiting(clients: map<nat, Phase>, evt: nat): nat {
    |Who(clients, Requested(evt))| + |Who(clients, Asleep(evt))| + |Who(clients, Woken(evt))|
  }

  /** How many listed results are for an event. */
  function Listed(results: seq<Result>, evt: nat): nat {
    multiset(Events(results))[evt]
  }

  function Events(results: seq<Result>): seq<nat> {
    seq(|results|, i requires 0 <= i < |results| => results[i].requestApi)
  }

  lemma ListedSignal(results: seq<Result>, r: Result, evt: nat)
    ensures Listed(results + [r], evt) == Listed(results, evt) + if evt == r.requestApi then 1 else 0
  {
    assert Events(results + [r]) == Events(results) + [r.requestApi];
  }

  lemma ListedTake(results: seq<Result>, i: nat, evt: nat)
    requires i < |results|
    ensures Listed(results, evt) == Listed(Without(results, i), evt) + if evt == results[i].requestApi then 1 else 0
  {
    var es := Events(results);
    assert Events(Without(results, i)) == es[..i] + es[i + 1..];
    assert es == es[..i] + [es[i]] + es[i + 1..];
  }

  lemma FirstIsListed(results: seq<Result>)
    ensures results != [] ==> Listed(results, results[0].requestApi) > 0
  {
    assert results != [] ==> Events(results)[0] in Events(results);
  }

  lemma ListedNone(results: seq<Result>, evt: nat)
    requires FirstFor(results, evt) == |results|
    ensures Listed(results, evt) == 0
  {
    assert evt !in Events(results);
  }

  // ---------------------------------------------------------------------------------------
  // The invariant
  // ---------------------------------------------------------------------------------------

  ghost predicate OneHolder(s: State) {
    forall c, d :: c in s.clients && d in s.clients && HoldsLock(s.clients[c]) && HoldsLock(s.clients[d]) ==> c == d
  }

  /** As many clients wait for an event as there are requests unanswered and results unread; a
      result unread has woken a client that will read it. */
  ghost predicate Balance(clients: map<nat, Phase>, open: nat, listed: nat, evt: nat) {
    Waiting(clients, evt) == open + listed && listed <= |Who(clients, Woken(evt))|
  }

  ghost predicate Balanced(s: State, evt: nat) {
    Balance(s.clients, s.inflight[evt], Listed(s.pending, evt), evt)
  }

  ghost predicate Inv(s: State) {
    && OneHolder(s)
    && (forall evt :: Balanced(s, evt))
    && s.pending == Remaining(s.posted, s.taken)
    && (forall n :: n in s.taken ==> n < |s.posted|)
  }

  lemma InitInv(s: State)
    requires Init(s)
    ensures Inv(s)
  {
  }

  lemma SignalInv(s: State, t: State, result: Result)
    requires Inv(s) && Signal(s, t, result)
    ensures Inv(t)
  {
    forall evt ensures Balanced(t, evt) {
      assert Balanced(s, evt);
      WhoWoken(s.clients, evt);
      ListedSignal(s.pending, result, evt);
    }
    PostedLast(s.posted, s.taken, result, 0);
  }

  /** A client that finds its result. */
  lemma ServedInv(s: State, t: State, c: nat)
    requires Inv(s) && Scan(s, t, c) && FirstFor(s.pending, s.clients[c].evt) < |s.pending|
    ensures Inv(t)
  {
    TakeOldest(s.posted, s.taken, s.clients[c].evt, 0);
    ServedKeepsBalance(s, t, c);
  }

  lemma ServedKeepsBalance(s: State, t: State, c: nat)
    requires Inv(s) && Scan(s, t, c) && FirstFor(s.pending, s.clients[c].evt) < |s.pending|
    ensures forall evt :: Balanced(t, evt)
  {
    hide Balance, Remaining, OldestFor, OneHolder;
    forall evt ensures Balanced(t, evt) {
      assert Balanced(s, evt);
      ServedBalanced(s.clients, s.pending, s.inflight[evt], c, FirstFor(s.pending, s.clients[c].evt), evt);
    }
  }

  lemma ServedBalance(clients: map<nat, Phase>, c: nat, r: Result, open: nat, listed: nat, evt: nat)
    requires c in clients && clients[c].Woken? && Balance(clients, open, listed, evt)
    requires evt == clients[c].evt ==> listed > 0
    ensures Balance(clients[c := Served(r)], open, listed - (if evt == clients[c].evt then 1 else 0), evt)
  {
    WaitingMoved(clients, c, Served(r), evt);
  }

  lemma ServedBalanced(clients: map<nat, Phase>, pending: seq<Result>, open: nat, c: nat, i: nat, evt: nat)
    requires c in clients && i < |pending| && clients[c] == Woken(pending[i].requestApi)
    requires Balance(clients, open, Listed(pending, evt), evt)
    ensures Balance(clients[c := Served(pending[i])], open, Listed(Without(pending, i), evt), evt)
  {
    ListedTake(pending, i, evt);
    ServedBalance(clients, c, pending[i], open, Listed(pending, evt), evt);
  }

  /** A client that finds none sleeps again. */
  lemma SleepAgainInv(s: State, t: State, c: nat)
    requires Inv(s) && Scan(s, t, c) && FirstFor(s.pending, s.clients[c].evt) == |s.pending|
    ensures Inv(t)
  {
    var e := s.clients[c].evt;
    ListedNone(s.pending, e);
    forall evt ensures Balanced(t, evt) {
      assert Balanced(s, evt);
      WaitingMoved(s.clients, c, Asleep(e), evt);
    }
  }

  lemma RequestInv(s: State, t: State, c: nat, e: nat)
    requires Inv(s) && Request(s, t, c, e)
    ensures Inv(t)
  {
    forall evt ensures Balanced(t, evt) {
      assert Balanced(s, evt);
      WaitingMoved(s.clients, c, Requested(e), evt);
    }
  }

  lemma SleepInv(s: State, t: State, c: nat)
    requires Inv(s) && (Sleep(s, t, c) || SpuriousWake(s, t, c))
    ensures Inv(t)
  {
    forall evt ensures Balanced(t, evt) {
      assert Balanced(s, evt);
      WaitingMoved(s.clients, c, t.clients[c], evt);
    }
  }

  lemma LockInv(s: State, t: State, c: nat)
    requires Inv(s) && Lock(s, t, c)
    ensures Inv(t)
  {
    WhoAdded(s.clients, c);
    forall evt ensures Balanced(t, evt) {
      assert Balanced(s, evt);
    }
  }

  lemma UnlockInv(s: State, t: State, c: nat)
    requires Inv(s) && Unlock(s, t, c)
    ensures Inv(t)
  {
    WhoRemoved(s.clients, c);
    forall evt ensures Balanced(t, evt) {
      assert Balanced(s, evt);
    }
  }

  lemma StepInv(s: State, t: State)
    requires Inv(s) && Step(s, t)
    ensures Inv(t)
  {
    if result :| Signal(s, t, result) {
      SignalInv(s, t, result);
    } else {
      var c :| ClientStep(s, t, c);
      if Scan(s, t, c) {
        if FirstFor(s.pending, s.clients[c].evt) < |s.pending| {
          ServedInv(s, t, c);
        } else {
          SleepAgainInv(s, t, c);
        }
      } else if Sleep(s, t, c) || SpuriousWake(s, t, c) {
        SleepInv(s, t, c);
      } else if Lock(s, t, c) {
        LockInv(s, t, c);
      } else if Unlock(s, t, c) {
        UnlockInv(s, t, c);
      } else {
        var evt :| Request(s, t, c, evt);
        RequestInv(s, t, c, evt);
      }
    }
  }

  // ---------------------------------------------------------------------------------------
  // Runs
  // ---------------------------------------------------------------------------------------

  ghost predicate IsRun(states: seq<State>) {
    states != [] && Init(states[0]) && forall k :: 0 < k < |states| ==> Step(states[k - 1], states[k])
  }

  lemma {:induction false} RunInv(states: seq<State>, k: nat)
    requires IsRun(states) && k < |states|
    ensures Inv(states[k])
  {
    if k == 0 {
      InitInv(states[0]);
    } else {
      RunInv(states, k - 1);
      StepInv(states[k - 1], states[k]);
    }
  }

  /** In every run the list holds exactly the results posted and not taken, in posting order, and a
      client that scans takes the oldest such result of its own event. */
  lemma ListIsPostedMinusTaken(states: seq<State>, k: nat, c: nat)
    requires IsRun(states) && k + 1 < |states|
    ensures states[k].pending == Remaining(states[k].posted, states[k].taken)
    ensures Scan(states[k], states[k + 1], c) && states[k + 1].clients[c].Served? ==>
      var s, t := states[k], states[k + 1];
      var n := OldestFor(s.posted, s.taken, s.clients[c].evt);
      && n < |s.posted| && n !in s.taken && t.taken == s.taken + {n}
      && t.clients[c] == Served(s.posted[n]) && s.posted[n].requestApi == s.clients[c].evt
  {
    RunInv(states, k);
    if Scan(states[k], states[k + 1], c) {
      TakeOldest(states[k].posted, states[k].taken, states[k].clients[c].evt, 0);
    }
  }

  /** No wake-up is lost: clients asleep for an event never outnumber the requests for it that the
      state machine has still to answer, and every unread result has a client, already woken, that
      waits for its event. */
  lemma SleepersAreAnswered(states: seq<State>, k: nat, evt: nat)
    requires IsRun(states) && k < |states|
    ensures |Who(states[k].clients, Asleep(evt))| <= states[k].inflight[evt]
    ensures Listed(states[k].pending, evt) <= |Who(states[k].clients, Woken(evt))|
  {
    RunInv(states, k);
    assert Balanced(states[k], evt);
  }

  /** When no client is inside a call, no request is open and no result is left behind. */
  lemma NothingLeftBehind(states: seq<State>, k: nat)
    requires IsRun(states) && k < |states| && states[k].clients == map[]
    ensures states[k].inflight == multiset{} && states[k].pending == []
  {
    RunInv(states, k);
    var s := states[k];
    forall evt ensures s.inflight[evt] == 0 && Listed(s.pending, evt) == 0 {
      assert Balanced(s, evt);
    }
    FirstIsListed(s.pending);
  }

  /** The history, the consumed positions and the list are the same. */
  predicate SameResults(s: State, t: State) {
    t.posted == s.posted && t.pending == s.pending && t.taken == s.taken
  }

  lemma QuietStep(s: State, t: State, c: nat)
    requires Step(s, t) && c in s.clients && s.clients[c].Requested?
    ensures SameResults(s, t)
    ensures c in t.clients && (t.clients[c] == s.clients[c] || t.clients[c] == Asleep(s.clients[c].evt))
  {
  }

  lemma QuietRequest(s: State, t: State, c: nat, evt: nat)
    requires Request(s, t, c, evt)
    ensures SameResults(s, t)
  {
  }

  /** A client is between its request, the step after state i, and its wait, the step after state k. */
  ghost predicate AboutToWait(states: seq<State>, i: nat, k: nat, c: nat, evt: nat)
    requires i < k && k + 1 < |states|
  {
    && Request(states[i], states[i + 1], c, evt) && Sleep(states[k], states[k + 1], c)
    && forall n :: i < n <= k ==> c in states[n].clients && states[n].clients[c] == Requested(evt)
  }

  /** In every run, from a client's request to the moment it sleeps, nothing is posted, nothing is
      consumed and the list stands still. */
  lemma {:induction false} NothingPostedBeforeWait(states: seq<State>, i: nat, k: nat, c: nat, evt: nat, j: nat)
    requires IsRun(states) && i < k && k + 1 < |states| && AboutToWait(states, i, k, c, evt)
    requires i <= j <= k + 1
    ensures SameResults(states[i], states[j])
  {
    hide Step, Request, Sleep;
    if j == i + 1 {
      QuietRequest(states[i], states[j], c, evt);
    } else if j > i {
      NothingPostedBeforeWait(states, i, k, c, evt, j - 1);
      QuietStep(states[j - 1], states[j], c);
    }
  }
}
