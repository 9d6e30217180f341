/**
 A camera channel: its list of streams, some of its own and some linked from other channels, and the
 buffers of a super frame that are returned to them.

 Calls into the streams and the camera interface are logged; what they answer is a parameter.
 */
module Channel {
  import opened Wrappers
  import opened Filters

  const MAX_STREAM_NUM_IN_BUNDLE: nat := 8
  const NO_ERROR: int := 0
  const NO_INIT: int := -19
  const BAD_VALUE: int := -22
  const INVALID_OPERATION: int := -38

  /** A stream knows its handle and the channel that created it. */
  class Stream {
    const handle: nat
    const channelHandle: nat

    constructor (handle: nat, channelHandle: nat)
      ensures this.handle == handle && this.channelHandle == channelHandle
    {
      this.handle, this.channelHandle := handle, channelHandle;
    }
  }

  datatype Buf = Buf(streamId: nat, bufIdx: nat)

  datatype Call = Stopped(stream: Stream) | Returned(stream: Stream, bufIdx: nat)

  // ---------------------------------------------------------------------------------------
  // Specification
  // ---------------------------------------------------------------------------------------

  /** A stream of the list, before which none has its handle. */
  ghost predicate IsFirst(streams: seq<Stream>, s: Stream) {
    exists i :: 0 <= i < |streams| && streams[i] == s && forall j :: 0 <= j < i ==> streams[j].handle != s.handle
  }

  /** The first stream with a handle. */
  function StreamOf(streams: seq<Stream>, handle: nat): (s: Option<Stream>)
    ensures s.Some? ==> IsFirst(streams, s.value) && s.value.handle == handle
    ensures s.None? ==> forall j :: 0 <= j < |streams| ==> streams[j].handle != handle
  {
    if streams == [] then None
    else if streams[0].handle == handle then Some(streams[0])
    else
      var s := StreamOf(streams[1..], handle);
      assert s.Some? ==> IsFirst(streams, s.value) by {
        if s.Some? {
          FirstBehind(streams, s.value);
        }
      }
      s
  }

  lemma FirstBehind(streams: seq<Stream>, s: Stream)
    requires streams != [] && IsFirst(streams[1..], s) && streams[0].handle != s.handle
    ensures IsFirst(streams, s)
  {
    var i :| 0 <= i < |streams| - 1 && streams[1..][i] == s && forall j :: 0 <= j < i ==> streams[1..][j].handle != s.handle;
    assert forall j :: 0 < j < i + 1 ==> streams[j] == streams[1..][j - 1];
    assert streams[i + 1] == s;
  }

  /** What returning a buffer amounts to. */
  function ReturnOf(streams: seq<Stream>, b: Option<Buf>): seq<Call> {
    if b.None? || StreamOf(streams, b.value.streamId).None? then []
    else [Returned(StreamOf(streams, b.value.streamId).value, b.value.bufIdx)]
  }

  function Returns(streams: seq<Stream>, bufs: seq<Option<Buf>>): seq<Call> {
    if bufs == [] then [] else Returns(streams, bufs[..|bufs| - 1]) + ReturnOf(streams, bufs[|bufs| - 1])
  }

  /** The buffers of a stream. */
  function For(id: nat): Option<Buf> -> bool {
    (b: Option<Buf>) => b.Some? && b.value.streamId == id
  }

  /** The buffers that `bufDone` leaves in a frame: all, if the stream is not in the channel. */
  function Staying(streams: seq<Stream>, id: nat): Option<Buf> -> bool {
    (b: Option<Buf>) => !(b.Some? && b.value.streamId == id && StreamOf(streams, id).Some?)
  }

  /** What returning a buffer amounts to if it is one of a stream. */
  function ReturnIf(streams: seq<Stream>, b: Option<Buf>, id: nat): seq<Call> {
    if For(id)(b) then ReturnOf(streams, b) else []
  }

  /** The streams that a channel created itself. */
  function OwnedBy(channel: nat): Stream -> bool {
    (s: Stream) => s.channelHandle == channel
  }

  function Stops(streams: seq<Stream>): seq<Call> {
    seq(|streams|, i requires 0 <= i < |streams| => Stopped(streams[i]))
  }

  // ---------------------------------------------------------------------------------------
  // The super frame and the channel
  // ---------------------------------------------------------------------------------------

  class SuperBuf {
    const bufs: array<Option<Buf>>
    var numBufs: nat

    ghost predicate Valid()
      reads this
    {
      numBufs <= bufs.Length <= MAX_STREAM_NUM_IN_BUNDLE
    }

    ghost function Live(): seq<Option<Buf>>
      reads this, bufs
      requires Valid()
    {
      bufs[..numBufs]
    }

    constructor (bufs: array<Option<Buf>>)
      requires bufs.Length <= MAX_STREAM_NUM_IN_BUNDLE
      ensures Valid() && this.bufs == bufs && numBufs == bufs.Length
    {
      this.bufs, numBufs := bufs, bufs.Length;
    }

    /** The inner loop of `bufDone`: the buffers behind position i move down by one. */
    method RemoveAt(i: nat)
      requires Valid() && i < numBufs
      modifies `numBufs, bufs
      ensures Valid() && Live() == Without(old(Live()), i)
    {
      var j := i;
      while j < numBufs - 1
        invariant i <= j <= numBufs - 1 && numBufs == old(numBufs)
        invariant bufs[..j] == old(bufs[..i] + bufs[i + 1..j + 1])
        invariant forall k :: j <= k < numBufs ==> bufs[k] == old(bufs[k])
      {
        bufs[j] := bufs[j + 1];
        j := j + 1;
      }
      numBufs := numBufs - 1;
    }
  }

  class Channel {
    const handle: nat
    /** What the n-th call into a stream answers. */
    const answers: nat -> int
    var streams: seq<Stream>
    var active: bool
    var log: seq<Call>

    constructor (handle: nat, answers: nat -> int)
      ensures this.handle == handle && this.answers == answers && streams == [] && !active && log == []
    {
      this.handle, this.answers := handle, answers;
      streams, active, log := [], false, [];
    }

    /** The return code kept in a loop: of the last call since the log had a length, if any. */
    ghost function LastAnswer(since: nat): int
      reads `log
    {
      if |log| <= since then NO_ERROR else answers(|log| - 1)
    }

    /** The search for a stream by handle. */
    method Search(id: nat) returns (s: Option<Stream>)
      ensures s == StreamOf(streams, id)
    {
      var j: nat := 0;
      assert streams[0..] == streams;
      while j < |streams| && streams[j].handle != id
        invariant j <= |streams| && StreamOf(streams, id) == StreamOf(streams[j..], id)
      {
        assert streams[j..][1..] == streams[j + 1..];
        j := j + 1;
      }
      s := if j < |streams| then Some(streams[j]) else None;
    }

    /** `addStream`: `initRc` is the answer of the new stream's initialisation. */
    method AddStream(streamHandle: nat, initRc: int) returns (rc: int)
      modifies `streams
      ensures rc == if |old(streams)| < MAX_STREAM_NUM_IN_BUNDLE then initRc else BAD_VALUE
      ensures rc != NO_ERROR ==> streams == old(streams)
      ensures rc == NO_ERROR ==>
        && |streams| == |old(streams)| + 1 && streams[..|old(streams)|] == old(streams)
        && fresh(streams[|old(streams)|])
        && streams[|old(streams)|].handle == streamHandle && streams[|old(streams)|].channelHandle == handle
    {
      if |streams| >= MAX_STREAM_NUM_IN_BUNDLE {
        return BAD_VALUE;
      }
      var stream := new Stream(streamHandle, handle);
      if initRc == NO_ERROR {
        streams := streams + [stream];
      }
      rc := initRc;
    }

    /** `linkStream`: `linked` says whether the camera interface links the stream. */
    method LinkStream(stream: Stream, linked: bool) returns (rc: int)
      modifies `streams
      ensures rc == if handle == 0 then NO_INIT else if linked then NO_ERROR else INVALID_OPERATION
      ensures streams == if rc == NO_ERROR then old(streams) + [stream] else old(streams)
    {
      if handle == 0 {
        return NO_INIT;
      }
      if !linked {
        rc := INVALID_OPERATION;
      } else {
        streams := streams + [stream];
        rc := NO_ERROR;
      }
    }

    /** `stop`: `answer` is that of the camera interface. */
    method Stop(answer: int) returns (rc: int)
      modifies this
      ensures !active
      ensures rc == if old(active) then answer else NO_INIT
      ensures !old(active) ==> streams == old(streams) && log == old(log)
      ensures old(active) ==> streams == Filter(old(streams), OwnedBy(handle)) && log == old(log) + Stops(streams)
      ensures old(active) ==>
        && (forall s :: s in streams <==> s in old(streams) && s.channelHandle == handle)
        && |log| == |old(log)| + |streams|
        && (forall i :: 0 <= i < |streams| ==> log[|old(log)| + i] == Stopped(streams[i]))
    {
      if !active {
        return NO_INIT;
      }
      hide StopProgress;
      var i: nat := 0;
      ghost var base, was, seen: nat := log, streams, 0;
      StopStarts();
      while i < |streams|
        invariant active && StopProgress(base, was, seen, i)
        decreases |streams| - i
      {
        i := StopOne(i, base, was, seen);
        seen := seen + 1;
      }
      StopEnds(base, was, seen, i);
      FilterMembers(was, OwnedBy(handle));
      active := false;
      rc := answer;
    }

    /** Mid-way through `stop`: of the list as it was, `seen` streams have been looked at, i of them
        stay and are stopped. */
    ghost predicate StopProgress(base: seq<Call>, was: seq<Stream>, seen: nat, i: nat)
      reads this
    {
      Compacting(was, seen, i, streams, OwnedBy(handle)) && StoppedUpTo(base, log, streams, i)
    }

    lemma StopStarts()
      ensures StopProgress(log, streams, 0, 0)
    {
      CompactingStart(streams, OwnedBy(handle));
      StoppedNone(log, streams);
    }

    lemma StopEnds(base: seq<Call>, was: seq<Stream>, seen: nat, i: nat)
      requires StopProgress(base, was, seen, i) && i >= |streams|
      ensures streams == Filter(was, OwnedBy(handle)) && log == base + Stops(streams)
    {
      hide Compacting, StoppedUpTo, Filter, Stops;
      CompactingAt(was, seen, i, streams, OwnedBy(handle));
      StoppedAll(base, log, streams);
    }

    /** One turn of `stop`: an own stream is stopped, a linked one leaves the list. */
    method StopOne(i: nat, ghost base: seq<Call>, ghost was: seq<Stream>, ghost seen: nat) returns (next: nat)
      requires StopProgress(base, was, seen, i) && i < |streams|
      modifies `log, `streams
      ensures StopProgress(base, was, seen + 1, next)
      ensures |streams| - next < |old(streams)| - i
    {
      hide Compacting, StoppedUpTo;
      if handle == streams[i].channelHandle {
        CompactingTurn(was, seen, i, streams, OwnedBy(handle), streams);
        StoppedNext(base, log, streams, i);
        log := log + [Stopped(streams[i])];
        next := i + 1;
      } else {
        CompactingTurn(was, seen, i, streams, OwnedBy(handle), Without(streams, i));
        StoppedKept(base, log, streams, i);
        streams := Without(streams, i);
        next := i;
      }
    }

    /** `bufDone` of a whole frame. */
    method BufDoneAll(frame: SuperBuf) returns (rc: int)
      requires frame.Valid()
      modifies `log
      ensures log == old(log) + Returns(streams, frame.Live()) && rc == LastAnswer(|old(log)|)
      ensures GoBack(log[|old(log)|..], streams, frame.Live())
      ensures rc == if log == old(log) then NO_ERROR else answers(|log| - 1)
    {
      hide AllProgress, Returns, GoBack;
      ReturnsGoBack(streams, frame.Live());
      rc := NO_ERROR;
      var i: nat := 0;
      ghost var base, live := log, frame.Live();
      assert AllProgress(base, live, 0, NO_ERROR) by { AllStarts(live); }
      while i < frame.numBufs
        invariant i <= frame.numBufs && AllProgress(base, live, i, rc)
      {
        rc := ReturnOne(frame.bufs[i], rc, base, live, i);
        i := i + 1;
      }
      AllEnds(base, live, i, rc);
    }

    /** The first i buffers of a frame have been returned; rc is the last answer. */
    ghost predicate AllProgress(base: seq<Call>, live: seq<Option<Buf>>, i: nat, rc: int)
      reads this
    {
      && i <= |live| && log == base + Returns(streams, live[..i])
      && |base| <= |log| && rc == LastAnswer(|base|)
    }

    lemma AllStarts(live: seq<Option<Buf>>)
      ensures AllProgress(log, live, 0, NO_ERROR)
    {
    }

    lemma AllEnds(base: seq<Call>, live: seq<Option<Buf>>, i: nat, rc: int)
      requires AllProgress(base, live, i, rc) && i == |live|
      ensures log == base + Returns(streams, live) && rc == LastAnswer(|base|)
    {
      assert live[..i] == live;
    }

    /** One buffer of a frame goes back to its stream, if the stream is in the channel. */
    method ReturnOne(b: Option<Buf>, before: int, ghost base: seq<Call>, ghost live: seq<Option<Buf>>, ghost i: nat)
      returns (rc: int)
      requires AllProgress(base, live, i, before) && i < |live| && b == live[i]
      modifies `log
      ensures AllProgress(base, live, i + 1, rc)
    {
      hide Returns;
      rc := before;
      ReturnsSnoc(streams, live, i);
      Assoc(base, Returns(streams, live[..i]), ReturnOf(streams, b));
      if b.Some? {
        var s := Search(b.value.streamId);
        if s.Some? {
          rc := answers(|log|);
          log := log + [Returned(s.value, b.value.bufIdx)];
        }
      }
    }

    /** `bufDone` of one stream's buffers, which leave the frame. */
    method BufDone(frame: SuperBuf, id: nat) returns (rc: int)
      requires frame.Valid()
      modifies `log, frame`numBufs, frame.bufs
      ensures frame.Valid() && frame.Live() == Filter(old(frame.Live()), Staying(streams, id))
      ensures log == old(log) + Returns(streams, Filter(old(frame.Live()), For(id))) && rc == LastAnswer(|old(log)|)
      ensures GoBack(log[|old(log)|..], streams, Filter(old(frame.Live()), For(id)))
      ensures rc == if log == old(log) then NO_ERROR else answers(|log| - 1)
    {
      hide Progress, Returns, GoBack, For, Staying, Filter;
      ReturnsGoBack(streams, Filter(frame.Live(), For(id)));
      rc := NO_ERROR;
      var i: nat := 0;
      ghost var base, was, seen: nat := log, frame.Live(), 0;
      ProgressStarts(frame, id);
      while i < frame.numBufs
        invariant Progress(frame, id, base, was, seen, i, rc)
        decreases frame.numBufs - i
      {
        i, rc := ReleaseAt(frame, i, id, rc, base, was, seen);
        seen := seen + 1;
      }
      ProgressEnds(frame, id, base, was, seen, i, rc);
    }

    /** Mid-way through `bufDone`: of the frame as it was, `seen` buffers have been looked at, i of them
        stay, the others are returned, and rc is the answer to the last return. */
    ghost predicate Progress(frame: SuperBuf, id: nat, base: seq<Call>, was: seq<Option<Buf>>, seen: nat, i: nat, rc: int)
      reads this, frame, frame.bufs
    {
      && frame.Valid() && Compacting(was, seen, i, frame.Live(), Staying(streams, id))
      && Logged(base, log, streams, was, seen, id)
      && |base| <= |log| && rc == LastAnswer(|base|)
    }

    lemma ProgressStarts(frame: SuperBuf, id: nat)
      requires frame.Valid()
      ensures Progress(frame, id, log, frame.Live(), 0, 0, NO_ERROR)
    {
      CompactingStart(frame.Live(), Staying(streams, id));
      LoggedNone(log, streams, frame.Live(), id);
    }

    lemma ProgressEnds(frame: SuperBuf, id: nat, base: seq<Call>, was: seq<Option<Buf>>, seen: nat, i: nat, rc: int)
      requires Progress(frame, id, base, was, seen, i, rc) && i >= frame.numBufs
      ensures frame.Valid() && frame.Live() == Filter(was, Staying(streams, id))
      ensures log == base + Returns(streams, Filter(was, For(id))) && rc == LastAnswer(|base|)
    {
      hide Compacting, Logged, Filter, Staying, For, Returns;
      CompactingAt(was, seen, i, frame.Live(), Staying(streams, id));
      LoggedAll(base, log, streams, was, id);
    }

    /** One turn of `bufDone`: a buffer that goes back to its stream leaves the frame. */
    method ReleaseAt(frame: SuperBuf, i: nat, id: nat, before: int, ghost base: seq<Call>, ghost was: seq<Option<Buf>>, ghost seen: nat)
      returns (next: nat, rc: int)
      requires Progress(frame, id, base, was, seen, i, before) && i < frame.numBufs
      modifies `log, frame`numBufs, frame.bufs
      ensures Progress(frame, id, base, was, seen + 1, next, rc)
      ensures next <= frame.numBufs && frame.numBufs - next < old(frame.numBufs) - i
    {
      hide Compacting, Logged, Filter, Staying, For, Returns, ReturnIf, LastAnswer;
      ghost var now := frame.Live();
      CompactingAt(was, seen, i, now, Staying(streams, id));
      LoggedNext(base, log, streams, was, seen, id);
      var removed;
      removed, rc := TryReturn(frame.bufs[i], id, before, |base|);
      if removed {
        frame.RemoveAt(i);
        next := i;
      } else {
        next := i + 1;
      }
      CompactingTurn(was, seen, i, now, Staying(streams, id), frame.Live());
    }

    /** The part of `bufDone` before the compaction: a buffer of the stream goes back to it, if the
        stream is in the channel. */
    method TryReturn(b: Option<Buf>, id: nat, before: int, ghost since: nat) returns (returned: bool, rc: int)
      requires since <= |log| && before == LastAnswer(since)
      modifies `log
      ensures returned == !Staying(streams, id)(b)
      ensures log == old(log) + ReturnIf(streams, b, id)
      ensures since <= |log| && rc == LastAnswer(since)
    {
      returned, rc := false, before;
      if b.Some? && b.value.streamId == id {
        var s := Search(id);
        if s.Some? {
          rc := answers(|log|);
          log := log + [Returned(s.value, b.value.bufIdx)];
          returned := true;
        }
      }
    }
  }

  /** The log after `stop` has stopped the first i streams of the list. */
  ghost predicate StoppedUpTo(base: seq<Call>, log: seq<Call>, streams: seq<Stream>, i: nat) {
    i <= |streams| && log == base + Stops(streams[..i])
  }

  lemma StoppedNone(log: seq<Call>, streams: seq<Stream>)
    ensures StoppedUpTo(log, log, streams, 0)
  {
  }

  lemma StoppedNext(base: seq<Call>, log: seq<Call>, streams: seq<Stream>, i: nat)
    requires StoppedUpTo(base, log, streams, i) && i < |streams|
    ensures StoppedUpTo(base, log + [Stopped(streams[i])], streams, i + 1)
  {
    assert Stops(streams[..i + 1]) == Stops(streams[..i]) + [Stopped(streams[i])];
  }

  lemma StoppedKept(base: seq<Call>, log: seq<Call>, streams: seq<Stream>, i: nat)
    requires StoppedUpTo(base, log, streams, i) && i < |streams|
    ensures StoppedUpTo(base, log, Without(streams, i), i)
  {
    assert Without(streams, i)[..i] == streams[..i];
  }

  lemma StoppedAll(base: seq<Call>, log: seq<Call>, streams: seq<Stream>)
    requires StoppedUpTo(base, log, streams, |streams|)
    ensures log == base + Stops(streams)
  {
    assert streams[..|streams|] == streams;
  }

  /** The log after the first n buffers of a frame have been looked at by `bufDone`. */
  ghost predicate Logged(base: seq<Call>, log: seq<Call>, streams: seq<Stream>, bufs: seq<Option<Buf>>, n: nat, id: nat) {
    n <= |bufs| && log == base + Returns(streams, Filter(bufs[..n], For(id)))
  }

  lemma LoggedNone(log: seq<Call>, streams: seq<Stream>, bufs: seq<Option<Buf>>, id: nat)
    ensures Logged(log, log, streams, bufs, 0, id)
  {
  }

  lemma LoggedNext(base: seq<Call>, log: seq<Call>, streams: seq<Stream>, bufs: seq<Option<Buf>>, n: nat, id: nat)
    requires Logged(base, log, streams, bufs, n, id) && n < |bufs|
    ensures Logged(base, log + ReturnIf(streams, bufs[n], id), streams, bufs, n + 1, id)
  {
    ReturnsNext(streams, bufs, n, id);
    Assoc(base, Returns(streams, Filter(bufs[..n], For(id))), ReturnIf(streams, bufs[n], id));
  }

  lemma LoggedAll(base: seq<Call>, log: seq<Call>, streams: seq<Stream>, bufs: seq<Option<Buf>>, id: nat)
    requires Logged(base, log, streams, bufs, |bufs|, id)
    ensures log == base + Returns(streams, Filter(bufs, For(id)))
  {
    assert bufs[..|bufs|] == bufs;
  }

  lemma ReturnsNext(streams: seq<Stream>, bufs: seq<Option<Buf>>, i: nat, id: nat)
    requires i < |bufs|
    ensures Returns(streams, Filter(bufs[..i + 1], For(id))) ==
      Returns(streams, Filter(bufs[..i], For(id))) + ReturnIf(streams, bufs[i], id)
  {
    FilterNext(bufs, i, For(id));
    ReturnsAppend(streams, Filter(bufs[..i], For(id)), bufs[i]);
  }

  lemma ReturnsAppend(streams: seq<Stream>, bufs: seq<Option<Buf>>, b: Option<Buf>)
    ensures Returns(streams, bufs + [b]) == Returns(streams, bufs) + ReturnOf(streams, b)
  {
    assert (bufs + [b])[..|bufs|] == bufs;
  }

  lemma ReturnsSnoc(streams: seq<Stream>, bufs: seq<Option<Buf>>, i: nat)
    requires i < |bufs|
    ensures Returns(streams, bufs[..i + 1]) == Returns(streams, bufs[..i]) + ReturnOf(streams, bufs[i])
  {
    assert bufs[..i + 1][..i] == bufs[..i];
  }

  // ---------------------------------------------------------------------------------------
  // Which buffer goes back to which stream
  // ---------------------------------------------------------------------------------------

  /** The buffers whose stream is in the channel. */
  ghost function AtHome(streams: seq<Stream>): Option<Buf> -> bool {
    (b: Option<Buf>) => b.Some? && exists j :: 0 <= j < |streams| && streams[j].handle == b.value.streamId
  }

  /** The calls give back, in order, exactly the buffers of a frame whose stream is in the channel: each by
      its own index to the first stream with the handle that the buffer names. */
  ghost predicate GoBack(calls: seq<Call>, streams: seq<Stream>, bufs: seq<Option<Buf>>) {
    var home := Filter(bufs, AtHome(streams));
    && |calls| == |home|
    && forall i :: 0 <= i < |calls| ==>
        && calls[i].Returned? && IsFirst(streams, calls[i].stream)
        && home[i] == Some(Buf(calls[i].stream.handle, calls[i].bufIdx))
  }

  lemma {:induction false} ReturnsGoBack(streams: seq<Stream>, bufs: seq<Option<Buf>>)
    ensures GoBack(Returns(streams, bufs), streams, bufs)
    decreases |bufs|
  {
    if bufs != [] {
      hide Filter, IsFirst;
      var n := |bufs| - 1;
      var front, last := bufs[..n], bufs[n];
      assert bufs == front + [last];
      ReturnsGoBack(streams, front);
      FilterSnoc(front, last, AtHome(streams));
      assert AtHome(streams)(last) <==> last.Some? && StreamOf(streams, last.value.streamId).Some?;
    } else {
      assert Filter(bufs, AtHome(streams)) == [];
    }
  }

  /** What a release gives back are buffers of the released stream, and what it leaves in the frame are
      not, unless that stream is not in the channel. */
  lemma ReleaseIsOfTheStream(calls: seq<Call>, streams: seq<Stream>, bufs: seq<Option<Buf>>, id: nat)
    requires GoBack(calls, streams, Filter(bufs, For(id)))
    ensures forall i :: 0 <= i < |calls| ==> calls[i].stream.handle == id
    ensures forall b :: b in Filter(bufs, Staying(streams, id)) && b.Some? && b.value.streamId == id ==>
      forall s :: s in streams ==> s.handle != id
  {
    FilterMembers(bufs, For(id));
    FilterMembers(Filter(bufs, For(id)), AtHome(streams));
    FilterMembers(bufs, Staying(streams, id));
    var home := Filter(Filter(bufs, For(id)), AtHome(streams));
    assert forall i :: 0 <= i < |home| ==> home[i] in home;
  }

  // ---------------------------------------------------------------------------------------
  // Properties over several calls
  // ---------------------------------------------------------------------------------------

  /** The returns of a frame, however ordered. */
  function ReturnBag(streams: seq<Stream>, bufs: seq<Option<Buf>>): multiset<Call> {
    multiset(Returns(streams, bufs))
  }

  lemma ReturnBagSnoc(streams: seq<Stream>, bufs: seq<Option<Buf>>, b: Option<Buf>)
    ensures ReturnBag(streams, bufs + [b]) == ReturnBag(streams, bufs) + multiset(ReturnOf(streams, b))
  {
    ReturnsAppend(streams, bufs, b);
  }

  /** A buffer is released first, or stays, or both and then there is nothing to return. */
  lemma ReleasedOrStaying(streams: seq<Stream>, b: Option<Buf>, id: nat)
    ensures For(id)(b) || Staying(streams, id)(b)
    ensures For(id)(b) && Staying(streams, id)(b) ==> ReturnOf(streams, b) == []
  {
  }

  lemma BagSteps<T>(x: multiset<T>, y: multiset<T>, r: multiset<T>)
    ensures (x + r) + y == (x + y) + r && x + (y + r) == (x + y) + r && x + multiset{} == x
  {
  }

  /** Returning one stream's buffers first and the rest of the frame afterwards returns every buffer
      exactly as often as returning the whole frame at once. */
  lemma {:induction false} NoBufferLostOrReturnedTwice(streams: seq<Stream>, bufs: seq<Option<Buf>>, id: nat)
    ensures ReturnBag(streams, Filter(bufs, For(id))) + ReturnBag(streams, Filter(bufs, Staying(streams, id)))
         == ReturnBag(streams, bufs)
    decreases |bufs|
  {
    if bufs != [] {
      var n := |bufs| - 1;
      var front, last := bufs[..n], bufs[n];
      assert bufs == front + [last];
      hide Filter, ReturnBag, ReturnOf, For, Staying;
      var first, later := Filter(front, For(id)), Filter(front, Staying(streams, id));
      NoBufferLostOrReturnedTwice(streams, front, id);
      FilterSnoc(front, last, For(id));
      FilterSnoc(front, last, Staying(streams, id));
      ReturnBagSnoc(streams, front, last);
      ReturnBagSnoc(streams, first, last);
      ReturnBagSnoc(streams, later, last);
      ReleasedOrStaying(streams, last, id);
      BagSteps(ReturnBag(streams, first), ReturnBag(streams, later), multiset(ReturnOf(streams, last)));
    }
  }

  /** After a release no buffer of the stream is left in the frame, and a second release changes
      nothing. */
  lemma ReleasedStreamIsGone(streams: seq<Stream>, bufs: seq<Option<Buf>>, id: nat)
    requires StreamOf(streams, id).Some?
    ensures var left := Filter(bufs, Staying(streams, id));
      && (forall b :: b in left ==> !For(id)(b))
      && Returns(streams, Filter(left, For(id))) == [] && Filter(left, Staying(streams, id)) == left
  {
    var left := Filter(bufs, Staying(streams, id));
    FilterMembers(bufs, Staying(streams, id));
    FilterNone(left, For(id));
    FilterSame(left, Staying(streams, id));
  }

  /** How a stream came into a channel's list. */
  datatype Arrival = Added(stream: Stream) | Linked(stream: Stream)

  function Arrived(history: seq<Arrival>): seq<Stream> {
    seq(|history|, i requires 0 <= i < |history| => history[i].stream)
  }

  function AddedOnly(history: seq<Arrival>): seq<Stream> {
    if history == [] then []
    else AddedOnly(history[..|history| - 1]) + if history[|history| - 1].Added? then [history[|history| - 1].stream] else []
  }

  /** However additions and links are interleaved, stopping keeps exactly the streams added, in the
      order in which they were added. */
  lemma {:induction false} StopDropsLinked(history: seq<Arrival>, channel: nat)
    requires forall a :: a in history ==> (a.Added? <==> a.stream.channelHandle == channel)
    ensures Filter(Arrived(history), OwnedBy(channel)) == AddedOnly(history)
    decreases |history|
  {
    if history != [] {
      var n := |history| - 1;
      StopDropsLinked(history[..n], channel);
      assert history[n] in history;
      assert Arrived(history) == Arrived(history[..n]) + [history[n].stream];
      FilterSnoc(Arrived(history[..n]), history[n].stream, OwnedBy(channel));
    }
  }
}
