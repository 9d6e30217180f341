/**
 The reprocess channel: a channel whose streams are made from the streams of a source channel, an
 array that remembers which, and the list of buffers mapped for offline reprocessing.
 */
module ReprocessChannel {
  import opened Wrappers
  import opened Filters
  import opened Folds
  import opened Channel

  const U32: nat := 0x1_0000_0000
  const NO_MEMORY: int := -12

  /** What happens to one source stream: it is skipped by the type tests, or a reprocess stream is
      made, whose allocation and initialisation may fail. */
  datatype Fate = Skipped | NoMemory | Made(streamHandle: nat, initRc: int)

  type Plan = nat -> Fate

  predicate MakesStream(fate: Fate) {
    fate.Made? && fate.initRc == NO_ERROR
  }

  function FateRc(fate: Fate): int {
    match fate
    case Skipped => NO_ERROR
    case NoMemory => NO_MEMORY
    case Made(_, initRc) => initRc
  }

  /** A reprocess stream and the source it was made from, by their handles. */
  datatype Binding = Binding(source: nat, stream: nat)

  /** The streams that come about for the sources from i on; a failure ends the scan. */
  function Products(sources: seq<Stream>, plan: Plan, i: nat): (made: seq<Binding>)
    requires i <= |sources|
    ensures |made| <= |sources| - i
    decreases |sources| - i
  {
    if i == |sources| then []
    else match plan(i)
      case Skipped => Products(sources, plan, i + 1)
      case NoMemory => []
      case Made(streamHandle, initRc) =>
        if initRc == NO_ERROR then [Binding(sources[i].handle, streamHandle)] + Products(sources, plan, i + 1)
        else []
  }

  /** The return code of that scan: of the first failure, if any. */
  function Outcome(sources: seq<Stream>, plan: Plan, i: nat): int
    requires i <= |sources|
    decreases |sources| - i
  {
    if i == |sources| then NO_ERROR
    else match plan(i)
      case Skipped => Outcome(sources, plan, i + 1)
      case NoMemory => NO_MEMORY
      case Made(_, initRc) => if initRc == NO_ERROR then Outcome(sources, plan, i + 1) else initRc
  }

  /** Source `at` is the first whose stream cannot be made. */
  ghost predicate FailsAt(sources: seq<Stream>, plan: Plan, i: nat, at: nat) {
    && i <= at < |sources| && (plan(at).NoMemory? || (plan(at).Made? && plan(at).initRc != 0))
    && forall j :: i <= j < at ==> plan(j).Skipped? || (plan(j).Made? && plan(j).initRc == 0)
  }

  ghost predicate NoneFails(sources: seq<Stream>, plan: Plan, i: nat) {
    forall j :: i <= j < |sources| ==> plan(j).Skipped? || (plan(j).Made? && plan(j).initRc == 0)
  }

  /** The scan returns the failure of the first source that fails, and 0 without one; it writes once for
      each stream made and once for a failed initialisation. */
  lemma {:induction false} FirstFailureDecides(sources: seq<Stream>, plan: Plan, i: nat)
    requires i <= |sources|
    ensures NoneFails(sources, plan, i) ==>
      Outcome(sources, plan, i) == 0 && Attempts(sources, plan, i) == |Products(sources, plan, i)|
    ensures forall at: nat :: FailsAt(sources, plan, i, at) ==>
      && Outcome(sources, plan, i) == (if plan(at).NoMemory? then -12 else plan(at).initRc)
      && Attempts(sources, plan, i) == |Products(sources, plan, i)| + (if plan(at).NoMemory? then 0 else 1)
    decreases |sources| - i
  {
    if i < |sources| {
      FirstFailureDecides(sources, plan, i + 1);
      forall at: nat | FailsAt(sources, plan, i, at) && at > i ensures FailsAt(sources, plan, i + 1, at) {
      }
    }
  }

  /** How many times that scan writes to the handle array. */
  function Attempts(sources: seq<Stream>, plan: Plan, i: nat): (n: nat)
    requires i <= |sources|
    ensures |Products(sources, plan, i)| <= n <= |sources| - i
    decreases |sources| - i
  {
    if i == |sources| then 0
    else match plan(i)
      case Skipped => Attempts(sources, plan, i + 1)
      case NoMemory => 0
      case Made(_, initRc) => if initRc == NO_ERROR then 1 + Attempts(sources, plan, i + 1) else 1
  }

  /** `getStreamByIndex` returns NULL from the bundle limit on, so later sources are not seen. */
  function Visible(sources: seq<Stream>): (v: seq<Stream>)
    ensures v <= sources && |v| == if |sources| < 8 then |sources| else 8
  {
    if |sources| <= MAX_STREAM_NUM_IN_BUNDLE then sources else sources[..MAX_STREAM_NUM_IN_BUNDLE]
  }

  // ---------------------------------------------------------------------------------------
  // Offline buffers
  // ---------------------------------------------------------------------------------------

  datatype BufType = MetaBuf | InputBuf

  datatype OfflineBuffer = OfflineBuffer(index: nat, stream: Stream, bufType: BufType)

  datatype MapCall = Mapped(b: OfflineBuffer) | Unmapped(b: OfflineBuffer)

  /** What a history of calls leaves mapped. */
  function Outstanding(calls: seq<MapCall>): multiset<OfflineBuffer> {
    if calls == [] then multiset{}
    else match calls[|calls| - 1]
      case Mapped(b) => Outstanding(calls[..|calls| - 1]) + multiset{b}
      case Unmapped(b) => Outstanding(calls[..|calls| - 1]) - multiset{b}
  }

  /** Nothing is unmapped that is not mapped. */
  predicate Paired(calls: seq<MapCall>) {
    calls == [] || (
      var front, last := calls[..|calls| - 1], calls[|calls| - 1];
      Paired(front) && (last.Unmapped? ==> last.b in Outstanding(front)))
  }

  lemma CallsSnoc(calls: seq<MapCall>, c: MapCall)
    ensures Outstanding(calls + [c]) ==
      if c.Mapped? then Outstanding(calls) + multiset{c.b} else Outstanding(calls) - multiset{c.b}
    ensures Paired(calls + [c]) <==> Paired(calls) && (c.Unmapped? ==> c.b in Outstanding(calls))
  {
    assert (calls + [c])[..|calls|] == calls;
  }

  function Unmaps(buffers: seq<OfflineBuffer>): seq<MapCall> {
    seq(|buffers|, i requires 0 <= i < |buffers| => Unmapped(buffers[i]))
  }

  /** The largest index, 0 for none, as the scan of `doReprocessOffline` finds it. */
  function MaxIndex(buffers: seq<OfflineBuffer>): (m: nat)
    ensures m == 0 || exists i :: 0 <= i < |buffers| && buffers[i].index == m
    ensures forall i :: 0 <= i < |buffers| ==> buffers[i].index <= m
  {
    if buffers == [] then 0
    else
      var m := MaxIndex(buffers[..|buffers| - 1]);
      if m < buffers[|buffers| - 1].index then buffers[|buffers| - 1].index else m
  }

  /** The next free index: 32-bit arithmetic. */
  function NextIndex(buffers: seq<OfflineBuffer>): nat {
    if buffers == [] then 0 else (MaxIndex(buffers) + 1) % U32
  }

  /** The buffers that a reprocess request maps: the metadata, then the frame. */
  function MetaOf(buffers: seq<OfflineBuffer>, stream: Stream): OfflineBuffer {
    OfflineBuffer(NextIndex(buffers), stream, MetaBuf)
  }

  function InputOf(buffers: seq<OfflineBuffer>, stream: Stream): OfflineBuffer {
    OfflineBuffer((NextIndex(buffers) + 1) % U32, stream, InputBuf)
  }

  /** What a request adds to the list: nothing, the metadata, or both, as the mappings succeed. */
  function NewlyMapped(buffers: seq<OfflineBuffer>, stream: Stream, metaOk: bool, inputOk: bool): seq<OfflineBuffer> {
    if !metaOk then [] else if !inputOk then [MetaOf(buffers, stream)] else [MetaOf(buffers, stream), InputOf(buffers, stream)]
  }

  function Maps(buffers: seq<OfflineBuffer>): seq<MapCall> {
    seq(|buffers|, i requires 0 <= i < |buffers| => Mapped(buffers[i]))
  }

  /** The indices count up from 0; below 2^32 buffers the 32-bit counter does not wrap. */
  ghost predicate Consecutive(buffers: seq<OfflineBuffer>) {
    |buffers| <= U32 ==> forall i :: 0 <= i < |buffers| ==> buffers[i].index == i
  }

  /** The list and the calls so far. */
  datatype Offline = Offline(buffers: seq<OfflineBuffer>, calls: seq<MapCall>)

  /** A request on a stream, and how its two mappings turn out. */
  datatype Request = Request(stream: Stream, metaOk: bool, inputOk: bool)

  function Reprocessed(o: Offline, r: Request): Offline {
    var mapped := NewlyMapped(o.buffers, r.stream, r.metaOk, r.inputOk);
    Offline(o.buffers + mapped, o.calls + Maps(mapped))
  }

  /** The list holds exactly the buffers that are mapped. */
  ghost predicate Sound(o: Offline) {
    Consecutive(o.buffers) && Outstanding(o.calls) == multiset(o.buffers) && Paired(o.calls)
  }

  /** Mid-scan: what has been made and written, and what the rest of the scan will, add up to the whole. */
  ghost predicate AheadOf(sources: seq<Stream>, plan: Plan, i: nat, rc: int, made: seq<Binding>) {
    if rc == NO_ERROR then
      var j := if i <= |sources| then i else |sources|;
      && made + Products(sources, plan, j) == Products(sources, plan, 0)
      && Outcome(sources, plan, j) == Outcome(sources, plan, 0)
      && |made| + Attempts(sources, plan, j) == Attempts(sources, plan, 0)
    else made == Products(sources, plan, 0) && rc == Outcome(sources, plan, 0)
  }

  /** What one source adds. */
  function Product(source: Stream, fate: Fate): seq<Binding> {
    if MakesStream(fate) then [Binding(source.handle, fate.streamHandle)] else []
  }

  lemma AheadNext(sources: seq<Stream>, plan: Plan, i: nat, made: seq<Binding>, rc: int)
    requires i < |sources| && AheadOf(sources, plan, i, NO_ERROR, made)
    requires rc == FateRc(plan(i))
    ensures AheadOf(sources, plan, i + 1, rc, made + Product(sources[i], plan(i)))
  {
  }

  /** There is room for the next write. */
  lemma AheadRoom(sources: seq<Stream>, plan: Plan, i: nat, made: seq<Binding>)
    requires i < |sources| && AheadOf(sources, plan, i, NO_ERROR, made) && plan(i).Made?
    ensures |made| < Attempts(sources, plan, 0)
  {
  }

  lemma AheadEnds(sources: seq<Stream>, plan: Plan, i: nat, rc: int, made: seq<Binding>)
    requires AheadOf(sources, plan, i, rc, made)
    ensures i >= |sources| ==> AheadOf(sources, plan, i + 1, rc, made)
    ensures i >= |sources| || rc != NO_ERROR ==> made == Products(sources, plan, 0) && rc == Outcome(sources, plan, 0)
  {
  }

  // ---------------------------------------------------------------------------------------
  // Which stream a source handle finds
  // ---------------------------------------------------------------------------------------

  /** The scan from i on gets to source `at` and makes a stream from it. */
  ghost predicate MakesAt(sources: seq<Stream>, plan: Plan, i: nat, at: nat) {
    && i <= at < |sources| && MakesStream(plan(at))
    && forall j :: i <= j < at ==> plan(j).Skipped? || MakesStream(plan(j))
  }

  /** Every source from which a stream is made has a position in the list ... */
  lemma {:induction false} SourceHasPosition(sources: seq<Stream>, plan: Plan, i: nat, at: nat) returns (k: nat)
    requires MakesAt(sources, plan, i, at)
    ensures k < |Products(sources, plan, i)|
    ensures Products(sources, plan, i)[k] == Binding(sources[at].handle, plan(at).streamHandle)
    decreases at - i
  {
    if i == at {
      k := 0;
    } else {
      k := SourceHasPosition(sources, plan, i + 1, at);
      if MakesStream(plan(i)) {
        k := k + 1;
      }
    }
  }

  /** ... every position comes from such a source, and later positions come from later sources. */
  lemma {:induction false} PositionHasSource(sources: seq<Stream>, plan: Plan, i: nat, k: nat) returns (at: nat)
    requires i <= |sources| && k < |Products(sources, plan, i)|
    ensures MakesAt(sources, plan, i, at)
    ensures Products(sources, plan, i)[k] == Binding(sources[at].handle, plan(at).streamHandle)
    decreases |sources| - i
  {
    if plan(i).Skipped? {
      at := PositionHasSource(sources, plan, i + 1, k);
    } else if k == 0 {
      at := i;
    } else {
      at := PositionHasSource(sources, plan, i + 1, k - 1);
    }
  }

  ghost predicate DistinctHandles(streams: seq<Stream>) {
    forall i, j :: 0 <= i < j < |streams| ==> streams[i].handle != streams[j].handle
  }

  /** Distinct source handles stay distinct among the streams made. */
  ghost predicate DistinctSources(made: seq<Binding>) {
    forall i, j :: 0 <= i < j < |made| ==> made[i].source != made[j].source
  }

  lemma {:induction false} ProductsDistinct(sources: seq<Stream>, plan: Plan, i: nat)
    requires i <= |sources| && DistinctHandles(sources)
    ensures DistinctSources(Products(sources, plan, i))
    decreases |sources| - i
  {
    if i < |sources| {
      ProductsDistinct(sources, plan, i + 1);
      var rest := Products(sources, plan, i + 1);
      forall k | 0 <= k < |rest| ensures rest[k].source != sources[i].handle {
        var at := PositionHasSource(sources, plan, i + 1, k);
      }
    }
  }

  /** The bindings of streams that were there before: their source handles have been cleared. */
  function Cleared(handles: seq<nat>): seq<Binding> {
    seq(|handles|, i requires 0 <= i < |handles| => Binding(0, handles[i]))
  }

  function HandlesOf(streams: seq<Stream>): seq<nat> {
    seq(|streams|, i requires 0 <= i < |streams| => streams[i].handle)
  }

  function Bind(labels: seq<nat>, streams: seq<Stream>): seq<Binding>
    requires |labels| == |streams|
  {
    seq(|streams|, i requires 0 <= i < |streams| => Binding(labels[i], streams[i].handle))
  }

  lemma BindSnoc(labels: seq<nat>, streams: seq<Stream>, source: nat, stream: Stream)
    requires |labels| == |streams|
    ensures Bind(labels + [source], streams + [stream]) == Bind(labels, streams) + [Binding(source, stream.handle)]
  {
  }

  /** The first position of a source handle. */
  function PositionOf(bindings: seq<Binding>, source: nat): (i: nat)
    ensures i <= |bindings| && forall j :: 0 <= j < i ==> bindings[j].source != source
    ensures i < |bindings| ==> bindings[i].source == source
  {
    if bindings == [] || bindings[0].source == source then 0 else 1 + PositionOf(bindings[1..], source)
  }

  lemma PositionIs(bindings: seq<Binding>, source: nat, i: nat)
    requires i <= |bindings| && (i < |bindings| ==> bindings[i].source == source)
    requires forall j :: 0 <= j < i ==> bindings[j].source != source
    ensures PositionOf(bindings, source) == i
  {
  }

  /** The handle of the stream that a source handle finds. */
  function Finds(bindings: seq<Binding>, source: nat): Option<nat> {
    var i := PositionOf(bindings, source);
    if i < |bindings| then Some(bindings[i].stream) else None
  }

  /** After the scan, each source with a stream finds exactly the stream made from it.  On a channel that
      had streams before, this leaves out a source with handle 0. */
  lemma SourceFindsItsStream(earlier: seq<nat>, sources: seq<Stream>, plan: Plan, at: nat)
    requires DistinctHandles(sources) && MakesAt(sources, plan, 0, at)
    requires earlier == [] || sources[at].handle != 0
    ensures Finds(Cleared(earlier) + Products(sources, plan, 0), sources[at].handle) == Some(plan(at).streamHandle)
  {
    var made := Products(sources, plan, 0);
    var k := SourceHasPosition(sources, plan, 0, at);
    ProductsDistinct(sources, plan, 0);
    PositionIs(Cleared(earlier) + made, sources[at].handle, |earlier| + k);
  }

  /** Handles of other sources find nothing ... */
  lemma OtherHandlesFindNothing(earlier: seq<nat>, sources: seq<Stream>, plan: Plan, source: nat)
    requires forall at: nat :: MakesAt(sources, plan, 0, at) ==> sources[at].handle != source
    requires earlier == [] || source != 0
    ensures Finds(Cleared(earlier) + Products(sources, plan, 0), source) == None
  {
    var made := Products(sources, plan, 0);
    forall k | 0 <= k < |made| ensures made[k].source != source {
      var at := PositionHasSource(sources, plan, 0, k);
    }
    PositionIs(Cleared(earlier) + made, source, |earlier| + |made|);
  }

  /** ... except that 0 finds the first stream that was there before. */
  lemma ZeroFindsAnEarlierStream(earlier: seq<nat>, made: seq<Binding>)
    requires earlier != []
    ensures Finds(Cleared(earlier) + made, 0) == Some(earlier[0])
  {
    PositionIs(Cleared(earlier) + made, 0, 0);
  }

  // ---------------------------------------------------------------------------------------
  // The class
  // ---------------------------------------------------------------------------------------

  class ReprocessChannel {
    const base: Channel
    const srcStreamHandles: array<nat>
    var offline: seq<OfflineBuffer>
    var calls: seq<MapCall>

    /** The channel's streams are its own and fit the handle array. */
    ghost predicate StreamsOk()
      reads base
    {
      && srcStreamHandles.Length == MAX_STREAM_NUM_IN_BUNDLE
      && |base.streams| <= MAX_STREAM_NUM_IN_BUNDLE
      && (forall i :: 0 <= i < |base.streams| ==> base.streams[i].channelHandle == base.handle)
    }

    /** What the handle array says of each stream. */
    ghost function Bindings(): seq<Binding>
      reads base, srcStreamHandles
      requires StreamsOk()
    {
      Bind(srcStreamHandles[..|base.streams|], base.streams)
    }

    ghost function OfflineState(): Offline
      reads `offline, `calls
    {
      Offline(offline, calls)
    }

    ghost predicate Valid()
      reads this, base, srcStreamHandles
    {
      StreamsOk() && Sound(OfflineState())
    }

    /** The stream that a source handle finds. */
    ghost function Found(srcHandle: nat): Option<Stream>
      reads base, srcStreamHandles
      requires StreamsOk()
    {
      var i := PositionOf(Bindings(), srcHandle);
      if i < |base.streams| then Some(base.streams[i]) else None
    }

    constructor (handle: nat, answers: nat -> int)
      ensures Valid() && fresh(base) && fresh(srcStreamHandles)
      ensures base.streams == [] && offline == [] && calls == [] && base.handle == handle
    {
      base := new Channel(handle, answers);
      srcStreamHandles := new nat[MAX_STREAM_NUM_IN_BUNDLE](_ => 0);
      offline, calls := [], [];
    }

    /** `memset` of the handle array. */
    method ClearHandles()
      modifies srcStreamHandles
      ensures forall k :: 0 <= k < srcStreamHandles.Length ==> srcStreamHandles[k] == 0
    {
      var k := 0;
      while k < srcStreamHandles.Length
        invariant 0 <= k <= srcStreamHandles.Length && forall j :: 0 <= j < k ==> srcStreamHandles[j] == 0
      {
        srcStreamHandles[k] := 0;
        k := k + 1;
      }
    }

    /** One source stream: its handle is stored at the next position before the stream is added. */
    method AddOne(source: Stream, fate: Fate) returns (rc: int)
      requires StreamsOk() && (fate.Made? ==> |base.streams| < MAX_STREAM_NUM_IN_BUNDLE)
      modifies base`streams, srcStreamHandles
      ensures StreamsOk() && rc == FateRc(fate) && old(base.streams) <= base.streams
      ensures Bindings() == old(Bindings()) + Product(source, fate)
    {
      match fate
      case Skipped =>
        rc := NO_ERROR;
      case NoMemory =>
        rc := NO_MEMORY;
      case Made(streamHandle, initRc) =>
        rc := Make(source, streamHandle, initRc);
    }

    method Make(source: Stream, streamHandle: nat, initRc: int) returns (rc: int)
      requires StreamsOk() && |base.streams| < MAX_STREAM_NUM_IN_BUNDLE
      modifies base`streams, srcStreamHandles
      ensures StreamsOk() && rc == initRc && old(base.streams) <= base.streams
      ensures Bindings() == old(Bindings()) + if initRc == NO_ERROR then [Binding(source.handle, streamHandle)] else []
    {
      ghost var before, labels := base.streams, srcStreamHandles[..|base.streams|];
      srcStreamHandles[|base.streams|] := source.handle;
      rc := base.AddStream(streamHandle, initRc);
      if rc == NO_ERROR {
        var n := |before|;
        assert base.streams == before + [base.streams[n]];
        BindSnoc(labels, before, source.handle, base.streams[n]);
        assert srcStreamHandles[..n + 1] == labels + [source.handle];
      } else {
        assert srcStreamHandles[..|before|] == labels;
      }
    }

    /** `addReprocStreamsFromSource`.  Every attempt writes one handle behind those of the streams already
        there; the precondition is the room these writes need, which an empty channel always has. */
    method AddReprocStreamsFromSource(src: Channel, padding: bool, plan: Plan) returns (rc: int)
      requires Valid() && src != base
      requires padding ==> |base.streams| + Attempts(Visible(src.streams), plan, 0) <= MAX_STREAM_NUM_IN_BUNDLE
      modifies base`streams, srcStreamHandles
      ensures Valid() && old(base.streams) <= base.streams
      ensures Bindings() == Cleared(old(HandlesOf(base.streams))) + if padding then Products(Visible(src.streams), plan, 0) else []
      ensures rc == if padding then Outcome(Visible(src.streams), plan, 0) else BAD_VALUE
      ensures padding && DistinctHandles(Visible(src.streams)) ==>
        EachFindsItsStream(Visible(src.streams), plan, old(base.streams) == [])
    {
      ghost var before := base.streams;
      ClearHandles();
      rc := BAD_VALUE;
      assert Bindings() == Cleared(HandlesOf(base.streams));
      if padding {
        rc := AddAll(src.streams, plan);
        if DistinctHandles(Visible(src.streams)) {
          BindingsFind(Visible(src.streams), plan, HandlesOf(before));
        }
      }
    }

    /** The lookup by source handle: every source that has a stream finds the stream made from it, and the
        handle of no other source finds one.  Unless the channel was empty, handle 0 is left out. */
    ghost predicate EachFindsItsStream(sources: seq<Stream>, plan: Plan, wasEmpty: bool)
      reads base, srcStreamHandles
      requires StreamsOk()
    {
      && (forall at: nat {:trigger MakesAt(sources, plan, 0, at)} ::
            MakesAt(sources, plan, 0, at) && (wasEmpty || sources[at].handle != 0) ==>
            Found(sources[at].handle).Some? && Found(sources[at].handle).value.handle == plan(at).streamHandle)
      && (forall source: nat {:trigger Found(source)} ::
            (wasEmpty || source != 0) && (forall at: nat :: MakesAt(sources, plan, 0, at) ==> sources[at].handle != source) ==>
            Found(source).None?)
    }

    lemma FoundIsFinds(source: nat)
      requires StreamsOk()
      ensures Finds(Bindings(), source) == if Found(source).Some? then Some(Found(source).value.handle) else None
    {
    }

    lemma BindingsFind(sources: seq<Stream>, plan: Plan, earlier: seq<nat>)
      requires StreamsOk() && DistinctHandles(sources) && Bindings() == Cleared(earlier) + Products(sources, plan, 0)
      ensures EachFindsItsStream(sources, plan, earlier == [])
    {
      hide Finds, Found, Bindings, Cleared, Products;
      forall at: nat {:trigger MakesAt(sources, plan, 0, at)} | MakesAt(sources, plan, 0, at) && (earlier == [] || sources[at].handle != 0)
        ensures Found(sources[at].handle).Some? && Found(sources[at].handle).value.handle == plan(at).streamHandle
      {
        SourceFindsItsStream(earlier, sources, plan, at);
        FoundIsFinds(sources[at].handle);
      }
      forall source: nat {:trigger Found(source)}
        | (earlier == [] || source != 0) && forall at: nat :: MakesAt(sources, plan, 0, at) ==> sources[at].handle != source
        ensures Found(source).None?
      {
        OtherHandlesFindNothing(earlier, sources, plan, source);
        FoundIsFinds(source);
      }
    }

    /** The loop over the source streams. */
    method AddAll(sources: seq<Stream>, plan: Plan) returns (rc: int)
      requires StreamsOk()
      requires |base.streams| + Attempts(Visible(sources), plan, 0) <= MAX_STREAM_NUM_IN_BUNDLE
      modifies base`streams, srcStreamHandles
      ensures StreamsOk() && old(base.streams) <= base.streams
      ensures Bindings() == old(Bindings()) + Products(Visible(sources), plan, 0)
      ensures rc == Outcome(Visible(sources), plan, 0)
    {
      rc := NO_ERROR;
      var i: nat := 0;
      ghost var seen, before, made: seq<Binding> := Visible(sources), Bindings(), [];
      assert before + [] == before;
      hide Outcome, Products;
      while i < |sources| && rc == NO_ERROR
        invariant i <= |sources| && StreamsOk() && old(base.streams) <= base.streams
        invariant AheadOf(seen, plan, i, rc, made)
        invariant Bindings() == before + made && |base.streams| == |before| + |made|
      {
        hide AheadOf, Product;
        if i < MAX_STREAM_NUM_IN_BUNDLE {
          if plan(i).Made? {
            AheadRoom(seen, plan, i, made);
          }
          rc := AddOne(sources[i], plan(i));
          AheadNext(seen, plan, i, made, rc);
          Assoc(before, made, Product(sources[i], plan(i)));
          made := made + Product(sources[i], plan(i));
        } else {
          AheadEnds(seen, plan, i, rc, made);
        }
        i := i + 1;
      }
      AheadEnds(seen, plan, i, rc, made);
    }

    /** `getStreamBySrouceHandle` */
    method GetStreamBySourceHandle(srcHandle: nat) returns (s: Option<Stream>)
      requires Valid()
      ensures s == Found(srcHandle)
      ensures Finds(Bindings(), srcHandle) == if s.Some? then Some(s.value.handle) else None
    {
      var i: nat := 0;
      while i < |base.streams|
        invariant i <= |base.streams|
        invariant forall j :: 0 <= j < i ==> srcStreamHandles[j] != srcHandle
      {
        if srcStreamHandles[i] == srcHandle {
          PositionIs(Bindings(), srcHandle, i);
          return Some(base.streams[i]);
        }
        i := i + 1;
      }
      PositionIs(Bindings(), srcHandle, i);
      s := None;
    }

    /** The index scan of `doReprocessOffline`. */
    method FindNextIndex() returns (bufIndex: nat)
      ensures bufIndex == NextIndex(offline)
    {
      bufIndex := 0;
      if offline != [] {
        var i: nat := 0;
        while i < |offline|
          invariant i <= |offline| && bufIndex == MaxIndex(offline[..i])
        {
          assert offline[..i + 1][..i] == offline[..i];
          if bufIndex < offline[i].index {
            bufIndex := offline[i].index;
          }
          i := i + 1;
        }
        assert offline[..i] == offline;
        bufIndex := (bufIndex + 1) % U32;
      }
    }

    /** A buffer is mapped and remembered. */
    method Remember(b: OfflineBuffer)
      requires Sound(OfflineState()) && (|offline| < U32 ==> b.index == |offline|)
      modifies `offline, `calls
      ensures Sound(OfflineState()) && offline == old(offline) + [b] && calls == old(calls) + [Mapped(b)]
    {
      hide Sound;
      MappedSound(OfflineState(), b);
      calls := calls + [Mapped(b)];
      offline := offline + [b];
    }

    /** `doReprocessOffline`: the answers of the two mappings and of the final request are given. */
    method DoReprocessOffline(frame: Option<nat>, meta: bool, stream: Option<Stream>, metaOk: bool, inputOk: bool, answer: int)
      returns (rc: int, used: Option<Stream>)
      requires Valid()
      modifies `offline, `calls
      ensures Valid()
      ensures used.None? ==> rc == INVALID_OPERATION && offline == old(offline) && calls == old(calls)
      ensures used == if frame.None? || !meta then None else if stream.Some? then stream else Found(frame.value)
      ensures used.Some? && |old(offline)| + 2 <= U32 ==>
        offline == old(offline) +
          if !metaOk then []
          else if !inputOk then [OfflineBuffer(|old(offline)|, used.value, MetaBuf)]
          else [OfflineBuffer(|old(offline)|, used.value, MetaBuf), OfflineBuffer(|old(offline)| + 1, used.value, InputBuf)]
      ensures used.Some? ==>
        && OfflineState() == Reprocessed(old(OfflineState()), Request(used.value, metaOk, inputOk))
        && rc == if metaOk && inputOk then answer else -1
    {
      hide Sound, Reprocessed;
      used := None;
      if frame.None? || !meta {
        return INVALID_OPERATION, None;
      }
      used := stream;
      if stream.None? {
        used := GetStreamBySourceHandle(frame.value);
        if used.None? {
          return INVALID_OPERATION, None;
        }
      }
      if |offline| + 2 <= U32 {
        RequestMaps(OfflineState(), Request(used.value, metaOk, inputOk));
      }
      rc := MapBoth(used.value, metaOk, inputOk, answer);
    }

    /** The mapping part of `doReprocessOffline`. */
    method MapBoth(stream: Stream, metaOk: bool, inputOk: bool, answer: int) returns (rc: int)
      requires Sound(OfflineState())
      modifies `offline, `calls
      ensures Sound(OfflineState())
      ensures OfflineState() == Reprocessed(old(OfflineState()), Request(stream, metaOk, inputOk))
      ensures rc == if metaOk && inputOk then answer else -1
    {
      hide Consecutive, Outstanding, Paired;
      var bufIndex := FindNextIndex();
      NextIsLength(offline);
      rc := -1;
      if metaOk {
        Remember(OfflineBuffer(bufIndex, stream, MetaBuf));
        bufIndex := (bufIndex + 1) % U32;
        if inputOk {
          Remember(OfflineBuffer(bufIndex, stream, InputBuf));
          rc := answer;
        }
      }
    }

    /** `stop`: the channel stops, and every mapped buffer is unmapped once. */
    method Stop(answer: int) returns (rc: int)
      requires Valid()
      modifies this, base
      ensures rc == if old(base.active) then answer else NO_INIT
      ensures Valid() && Bindings() == old(Bindings()) && base.streams == old(base.streams) && !base.active
      ensures offline == [] && calls == old(calls) + Unmaps(old(offline)) && Outstanding(calls) == multiset{}
      ensures |calls| == |old(calls)| + |old(offline)|
      ensures forall i :: 0 <= i < |old(offline)| ==> calls[|old(calls)| + i] == Unmapped(old(offline)[i])
      ensures old(base.active) ==> base.log == old(base.log) + Stops(base.streams)
    {
      FilterSame(base.streams, OwnedBy(base.handle));
      rc := base.Stop(answer);
      UnmapAll();
    }

    method UnmapAll()
      requires Sound(OfflineState())
      modifies `offline, `calls
      ensures Sound(OfflineState()) && offline == []
      ensures calls == old(calls) + Unmaps(old(offline)) && Outstanding(calls) == multiset{}
    {
      hide Unmapping, Unmaps, Outstanding, Paired;
      var i: nat := 0;
      ghost var before := calls;
      UnmappingNone(calls, offline);
      while i < |offline|
        invariant i <= |offline| && offline == old(offline) && Unmapping(before, calls, offline, i)
      {
        UnmappingNext(before, calls, offline, i);
        calls := calls + [Unmapped(offline[i])];
        i := i + 1;
      }
      UnmappingAll(before, calls, offline);
      offline := [];
    }
  }

  /** The history after the first i buffers of a list have been unmapped. */
  ghost predicate Unmapping(before: seq<MapCall>, calls: seq<MapCall>, buffers: seq<OfflineBuffer>, i: nat) {
    && i <= |buffers| && calls == before + Unmaps(buffers[..i])
    && Paired(calls) && Outstanding(calls) == multiset(buffers[i..])
  }

  lemma UnmappingNone(calls: seq<MapCall>, buffers: seq<OfflineBuffer>)
    requires Paired(calls) && Outstanding(calls) == multiset(buffers)
    ensures Unmapping(calls, calls, buffers, 0)
  {
    assert buffers[0..] == buffers;
  }

  lemma BagTail(buffers: seq<OfflineBuffer>, i: nat)
    requires i < |buffers|
    ensures multiset(buffers[i..]) == multiset(buffers[i + 1..]) + multiset{buffers[i]}
  {
    assert buffers[i..] == [buffers[i]] + buffers[i + 1..];
  }

  lemma UnmapsNext(before: seq<MapCall>, buffers: seq<OfflineBuffer>, i: nat)
    requires i < |buffers|
    ensures before + Unmaps(buffers[..i + 1]) == (before + Unmaps(buffers[..i])) + [Unmapped(buffers[i])]
  {
    assert Unmaps(buffers[..i + 1]) == Unmaps(buffers[..i]) + [Unmapped(buffers[i])];
  }

  lemma UnmappingNext(before: seq<MapCall>, calls: seq<MapCall>, buffers: seq<OfflineBuffer>, i: nat)
    requires Unmapping(before, calls, buffers, i) && i < |buffers|
    ensures Unmapping(before, calls + [Unmapped(buffers[i])], buffers, i + 1)
  {
    hide Outstanding, Paired, Unmaps;
    CallsSnoc(calls, Unmapped(buffers[i]));
    BagTail(buffers, i);
    UnmapsNext(before, buffers, i);
  }

  lemma UnmappingAll(before: seq<MapCall>, calls: seq<MapCall>, buffers: seq<OfflineBuffer>)
    requires Unmapping(before, calls, buffers, |buffers|)
    ensures calls == before + Unmaps(buffers) && Paired(calls) && Outstanding(calls) == multiset{}
  {
    assert buffers[..|buffers|] == buffers;
  }

  /** As long as the counter has not wrapped, the next index is the number of buffers. */
  lemma NextIsLength(buffers: seq<OfflineBuffer>)
    requires Consecutive(buffers)
    ensures |buffers| < U32 ==> NextIndex(buffers) == |buffers|
    ensures |buffers| + 1 < U32 ==> (NextIndex(buffers) + 1) % U32 == |buffers| + 1
  {
    if buffers != [] && |buffers| < U32 {
      assert buffers[|buffers| - 1].index == |buffers| - 1;
    }
  }

  // ---------------------------------------------------------------------------------------
  // Runs of offline requests
  // ---------------------------------------------------------------------------------------

  lemma MappedSound(o: Offline, b: OfflineBuffer)
    requires Sound(o) && (|o.buffers| < U32 ==> b.index == |o.buffers|)
    ensures Sound(Offline(o.buffers + [b], o.calls + [Mapped(b)]))
  {
    CallsSnoc(o.calls, Mapped(b));
  }

  lemma NoMore(o: Offline)
    ensures Offline(o.buffers + [], o.calls + Maps([])) == o
  {
  }

  lemma OneMore(o: Offline, m: OfflineBuffer)
    ensures Offline(o.buffers + [m], o.calls + Maps([m])) == Offline(o.buffers + [m], o.calls + [Mapped(m)])
  {
    assert Maps([m]) == [Mapped(m)];
  }

  lemma TwoMore(o: Offline, m: OfflineBuffer, f: OfflineBuffer)
    ensures Offline(o.buffers + [m, f], o.calls + Maps([m, f]))
         == Offline(o.buffers + [m] + [f], o.calls + [Mapped(m)] + [Mapped(f)])
  {
    assert o.buffers + [m, f] == o.buffers + [m] + [f];
    assert Maps([m, f]) == [Mapped(m)] + [Mapped(f)];
  }

  lemma RequestSound(o: Offline, r: Request)
    requires Sound(o) && |o.buffers| + 2 <= U32
    ensures Sound(Reprocessed(o, r))
  {
    NextIsLength(o.buffers);
    hide Sound, Maps;
    var m, f := MetaOf(o.buffers, r.stream), InputOf(o.buffers, r.stream);
    if !r.metaOk {
      NoMore(o);
    } else {
      MappedSound(o, m);
      if !r.inputOk {
        OneMore(o, m);
      } else {
        MappedSound(Offline(o.buffers + [m], o.calls + [Mapped(m)]), f);
        TwoMore(o, m, f);
      }
    }
  }

  /** As long as the counter has not wrapped, a request maps the metadata as the next buffer and, if that
      succeeds, the frame as the one after it, both on the request's stream. */
  lemma RequestMaps(o: Offline, r: Request)
    requires Sound(o) && |o.buffers| + 2 <= U32
    ensures var n, t := |o.buffers|, Reprocessed(o, r);
      var meta, input := OfflineBuffer(n, r.stream, MetaBuf), OfflineBuffer(n + 1, r.stream, InputBuf);
      if !r.metaOk then t == o
      else if !r.inputOk then t == Offline(o.buffers + [meta], o.calls + [Mapped(meta)])
      else t == Offline(o.buffers + [meta, input], o.calls + [Mapped(meta), Mapped(input)])
  {
    NextIsLength(o.buffers);
    hide Outstanding, Paired, NextIndex, Consecutive, Maps;
    var n := |o.buffers|;
    NoMore(o);
    MapsOf(OfflineBuffer(n, r.stream, MetaBuf), OfflineBuffer(n + 1, r.stream, InputBuf));
  }

  lemma MapsOf(m: OfflineBuffer, f: OfflineBuffer)
    ensures Maps([m]) == [Mapped(m)] && Maps([m, f]) == [Mapped(m), Mapped(f)]
  {
  }

  /** Over any run of fewer than 2^31 requests, whichever mappings fail, the indices count up strictly
      and the list holds exactly the buffers that are mapped. */
  lemma {:induction false} OfflineRun(o: Offline, run: seq<Request>)
    requires Sound(o) && |o.buffers| + 2 * |run| <= U32
    ensures Sound(Fold(Reprocessed, o, run)) && |Fold(Reprocessed, o, run).buffers| <= U32
    decreases |run|
  {
    if run != [] {
      RequestSound(o, run[0]);
      OfflineRun(Reprocessed(o, run[0]), run[1..]);
    }
  }

  lemma {:induction false} UnmapsClear(calls: seq<MapCall>, buffers: seq<OfflineBuffer>, i: nat)
    requires Paired(calls) && Outstanding(calls) == multiset(buffers) && i <= |buffers|
    ensures Unmapping(calls, calls + Unmaps(buffers[..i]), buffers, i)
  {
    if i == 0 {
      UnmappingNone(calls, buffers);
      assert calls + Unmaps(buffers[..0]) == calls;
    } else {
      UnmapsClear(calls, buffers, i - 1);
      UnmappingNext(calls, calls + Unmaps(buffers[..i - 1]), buffers, i - 1);
      UnmapsNext(calls, buffers, i - 1);
    }
  }

  /** At the end of such a run, `stop` unmaps buffers that are all different, each of them mapped, and
      leaves nothing mapped. */
  lemma StopUnmapsEachOnce(run: seq<Request>)
    requires 2 * |run| <= U32
    ensures var o := Fold(Reprocessed, Offline([], []), run);
      && (forall i, j :: 0 <= i < j < |o.buffers| ==> o.buffers[i].index < o.buffers[j].index)
      && Outstanding(o.calls) == multiset(o.buffers)
      && Paired(o.calls + Unmaps(o.buffers)) && Outstanding(o.calls + Unmaps(o.buffers)) == multiset{}
  {
    OfflineRun(Offline([], []), run);
    var o := Fold(Reprocessed, Offline([], []), run);
    UnmapsClear(o.calls, o.buffers, |o.buffers|);
    assert o.buffers[..|o.buffers|] == o.buffers;
    UnmappingAll(o.calls, o.calls + Unmaps(o.buffers), o.buffers);
  }
}
