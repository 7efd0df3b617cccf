/** What the broker's logs and buffers hold, told from the requests alone.

    Nothing here looks at a queue: a buffer's serial is that of the last enqueue request that named it, a
    consumer's sizes are those of the request that made it, and each log is what the requests cause to be sent.
    The state of the machine in BrokerModel is proved to be just that after every run. */
module BrokerHistory {
  import opened Basics
  import opened BrokerModel
  import opened BrokerRuns

  // ---------- what the requests say ----------

  /** The number of buffers attached so far; a new one gets it as its handle. */
  ghost function Attaches(rs: seq<Request>): nat {
    if rs == [] then 0 else Attaches(rs[..|rs| - 1]) + if rs[|rs| - 1].Attach? then 1 else 0
  }

  /** The number of set-fd requests so far; the next one gets it as its tag. */
  ghost function FdRequests(rs: seq<Request>): nat {
    if rs == [] then 0 else FdRequests(rs[..|rs| - 1]) + if rs[|rs| - 1].SetFd? then 1 else 0
  }

  /** The attributes in the attach request number h. */
  ghost function AttrsOf(rs: seq<Request>, h: nat): Option<Attrs> {
    if rs == [] then None
    else
      var before, r := rs[..|rs| - 1], rs[|rs| - 1];
      if r.Attach? && Attaches(before) == h then Some(r.attrs) else AttrsOf(before, h)
  }

  /** What the last set-id or set-fd request for the buffer says. */
  ghost function ContentOf(rs: seq<Request>, n: string, h: nat): Content {
    if rs == [] then BLANK
    else
      var before, r := rs[..|rs| - 1], rs[|rs| - 1];
      if r.SetId? && r.name == n && r.handle == h then IdContent(r.id, r.layout)
      else if r.SetFd? && r.name == n && r.handle == h then FdContent(r.fd, r.layout, FdRequests(before))
      else ContentOf(before, n, h)
  }

  /** The serial in the last enqueue request for the buffer, 0 if there is none. */
  ghost function SerialOf(rs: seq<Request>, n: string, h: nat): int {
    if rs == [] then 0
    else
      var r := rs[|rs| - 1];
      if r.Enqueue? && r.name == n && r.handle == h then r.serial else SerialOf(rs[..|rs| - 1], n, h)
  }

  datatype Size = Size(queueSize: int, width: int, height: int)

  /** The sizes in the request that made the current consumer. */
  ghost function MadeBy(rs: seq<Request>, n: string): Option<Size> {
    if rs == [] then None
    else
      var was, r := MadeBy(rs[..|rs| - 1], n), rs[|rs| - 1];
      if r.name != n then was
      else if r.CreateConsumer? && was.None? then Some(Size(r.queueSize, r.width, r.height))
      else if r.DestroyConsumer? then None
      else was
  }

  ghost predicate Provided(rs: seq<Request>, n: string) {
    rs != [] &&
    var r := rs[|rs| - 1];
    if r.name == n && r.CreateProvider? then true
    else if r.name == n && r.DestroyProvider? then false
    else Provided(rs[..|rs| - 1], n)
  }

  ghost function Dropped(hs: seq<nat>, h: nat): seq<nat> {
    if hs == [] then [] else if hs[0] == h then hs[1..] else [hs[0]] + Dropped(hs[1..], h)
  }

  /** The handles attached and not detached; the end of either endpoint takes them all. */
  ghost function Present(rs: seq<Request>, n: string): seq<nat> {
    if rs == [] then []
    else
      var before, r := rs[..|rs| - 1], rs[|rs| - 1];
      var was := Present(before, n);
      if r.name != n then was
      else if r.Attach? then was + [Attaches(before)]
      else if r.Detach? then Dropped(was, r.handle)
      else if r.DestroyConsumer? || r.DestroyProvider? then []
      else was
  }

  ghost function ContentEvent(h: nat, content: Content): ConsumerEvent {
    match content
    case IdContent(id, layout) => SetBufferId(h, id, layout)
    case FdContent(fd, layout, _) => SetBufferFd(h, fd, layout)
  }

  ghost function AttachEvent(rs: seq<Request>, h: nat): ConsumerEvent {
    Attached(h, if AttrsOf(rs, h).Some? then AttrsOf(rs, h).value else Attrs("", 0, 0, 0, 0))
  }

  /** What a new consumer is told about buffers that are already there. */
  ghost function Greeting(rs: seq<Request>, n: string, hs: seq<nat>): seq<ConsumerEvent> {
    if hs == [] then []
    else
      var h := hs[|hs| - 1];
      Greeting(rs, n, hs[..|hs| - 1]) + [AttachEvent(rs, h), ContentEvent(h, ContentOf(rs, n, h))]
  }

  ghost function Farewell(hs: seq<nat>): seq<ConsumerEvent> {
    if hs == [] then [] else Farewell(hs[..|hs| - 1]) + [Detached(hs[|hs| - 1])]
  }

  /** What the request r, coming after rs, sends to the consumer of its queue. */
  ghost function ToldConsumer(rs: seq<Request>, r: Request): seq<ConsumerEvent> {
    match r
    case CreateConsumer(_, _, _, _) => []
    case CreateProvider(n) => if Provided(rs, n) then [] else [Connected]
    case Attach(_, attrs) => [Attached(Attaches(rs), attrs)]
    case SetId(_, h, id, layout) => [SetBufferId(h, id, layout)]
    case SetFd(_, h, fd, layout) => [SetBufferFd(h, fd, layout)]
    case Detach(_, h) => [Detached(h)]
    case Enqueue(_, h, serial) => [AddBuffer(h, serial)]
    case Release(_, _) => []
    case DestroyConsumer(_) => []
    case DestroyProvider(n) => Farewell(Present(rs, n)) + [Disconnected]
  }

  /** The log of the current consumer. */
  ghost function ConsumerLog(rs: seq<Request>, n: string): Option<seq<ConsumerEvent>> {
    if rs == [] then None
    else
      var before, r := rs[..|rs| - 1], rs[|rs| - 1];
      var was := ConsumerLog(before, n);
      if r.name != n then was
      else if r.DestroyConsumer? then None
      else if was.Some? then Some(was.value + ToldConsumer(before, r))
      else if r.CreateConsumer?
      then Some((if Provided(before, n) then [Connected] else []) + Greeting(before, n, Present(before, n)))
      else None
  }

  /** What the request r, coming after rs, sends to the provider of its queue. */
  ghost function ToldProvider(rs: seq<Request>, r: Request): seq<ProviderEvent> {
    match r
    case CreateConsumer(n, queueSize, width, height) =>
      if MadeBy(rs, n).Some? then [] else [ProviderConnected(queueSize, width, height)]
    case Release(n, h) => [ProviderAddBuffer(h, SerialOf(rs, n, h))]
    case DestroyConsumer(_) => [ProviderDisconnected]
    case _ => []
  }

  /** The log of the current provider. */
  ghost function ProviderLog(rs: seq<Request>, n: string): Option<seq<ProviderEvent>> {
    if rs == [] then None
    else
      var before, r := rs[..|rs| - 1], rs[|rs| - 1];
      var was := ProviderLog(before, n);
      if r.name != n then was
      else if r.DestroyProvider? then None
      else if was.Some? then Some(was.value + ToldProvider(before, r))
      else if r.CreateProvider?
      then
        var c := MadeBy(before, n);
        Some(if c.Some? then [ProviderConnected(c.value.queueSize, c.value.width, c.value.height)] else [])
      else None
  }

  ghost function TagsOf(rs: seq<Request>, n: string, hs: seq<nat>): seq<nat> {
    if hs == [] then []
    else
      var c := ContentOf(rs, n, hs[|hs| - 1]);
      TagsOf(rs, n, hs[..|hs| - 1]) + if c.FdContent? then [c.tag] else []
  }

  /** The fds closed so far: an fd is closed once a consumer has been told of it. */
  ghost function Closed(rs: seq<Request>): seq<nat> {
    if rs == [] then []
    else
      var before, r := rs[..|rs| - 1], rs[|rs| - 1];
      Closed(before)
      + if MadeBy(before, r.name).Some? then (if r.SetFd? then [FdRequests(before)] else [])
        else if r.CreateConsumer? then TagsOf(before, r.name, Present(before, r.name))
        else []
  }

  /** The logs of consumers that have been destroyed, and of providers. */
  ghost function EndedLogs(rs: seq<Request>): (seq<seq<ConsumerEvent>>, seq<seq<ProviderEvent>>) {
    if rs == [] then ([], [])
    else
      var before, r := rs[..|rs| - 1], rs[|rs| - 1];
      var (cs, ps) := EndedLogs(before);
      var c, p := ConsumerLog(before, r.name), ProviderLog(before, r.name);
      (cs + if r.DestroyConsumer? && c.Some? then [c.value] else [],
       ps + if r.DestroyProvider? && p.Some? then [p.value] else [])
  }

  // ---------- the state says the same ----------

  ghost predicate BufferTold(rs: seq<Request>, n: string, b: Buffer, h: nat) {
    && b.handle == h && AttrsOf(rs, h) == Some(b.attrs)
    && b.content == ContentOf(rs, n, h) && b.serial == SerialOf(rs, n, h)
  }

  ghost predicate BuffersTold(rs: seq<Request>, n: string, bs: seq<Buffer>) {
    var hs := Present(rs, n);
    |bs| == |hs| && forall i | 0 <= i < |hs| :: BufferTold(rs, n, bs[i], hs[i])
  }

  ghost predicate ConsumerTold(rs: seq<Request>, n: string, c: Option<Consumer>) {
    var made, log := MadeBy(rs, n), ConsumerLog(rs, n);
    && c.Some? == made.Some? == log.Some?
    && (c.Some? ==> c.value == Consumer(made.value.queueSize, made.value.width, made.value.height, log.value))
  }

  ghost predicate ProviderTold(rs: seq<Request>, n: string, p: Option<Provider>) {
    var log := ProviderLog(rs, n);
    && p.Some? == Provided(rs, n) == log.Some?
    && (p.Some? ==> p.value == Provider(log.value))
  }

  ghost predicate QueueTold(rs: seq<Request>, n: string, q: Queue) {
    ConsumerTold(rs, n, q.consumer) && ProviderTold(rs, n, q.provider) && BuffersTold(rs, n, q.buffers)
  }

  /** No queue, or what the requests make of it. */
  ghost predicate NameTold(rs: seq<Request>, n: string, st: State) {
    if n in st.queues then QueueTold(rs, n, st.queues[n]) else QueueTold(rs, n, Queue(0, None, None, []))
  }

  ghost predicate StateTold(rs: seq<Request>, st: State) {
    && st.handles == Attaches(rs) && st.fds == FdRequests(rs) && st.closed == Closed(rs)
    && (st.endedConsumers, st.endedProviders) == EndedLogs(rs)
    && forall n :: NameTold(rs, n, st)
  }

  // ---------- runs from their ends ----------

  lemma {:induction false} RunSnoc(st: State, rs: seq<Request>, r: Request)
    ensures IsRun(st, rs + [r]) <==> IsRun(st, rs) && Enabled(Run(st, rs), r)
    ensures IsRun(st, rs + [r]) ==> Run(st, rs + [r]) == Step(Run(st, rs), r)
    decreases |rs|
  {
    hide Step, Enabled;
    var all := rs + [r];
    if rs == [] {
      assert all == [r] && [r][1..] == [];
    } else {
      assert all[0] == rs[0] && all[1..] == rs[1..] + [r];
      if Enabled(st, rs[0]) { RunSnoc(Step(st, rs[0]), rs[1..], r); }
    }
  }

  lemma SnocParts<T>(rs: seq<T>, r: T)
    ensures var all := rs + [r]; all != [] && all[..|all| - 1] == rs && all[|all| - 1] == r
  {
  }

  lemma BufferStays(rs: seq<Request>, r: Request, n: string, b: Buffer, h: nat)
    requires BufferTold(rs, n, b, h) && h < Attaches(rs)
    requires r.name == n && (r.SetId? || r.SetFd? || r.Enqueue?) ==> r.handle != h
    ensures BufferTold(rs + [r], n, b, h)
  {
    SnocParts(rs, r);
  }

  /** Buffers that a request does not name stay as they are told. */
  lemma BuffersStay(rs: seq<Request>, r: Request, n: string, bs: seq<Buffer>)
    requires BuffersTold(rs, n, bs) && forall i | 0 <= i < |bs| :: bs[i].handle < Attaches(rs)
    requires r.name == n ==> r.CreateConsumer? || r.CreateProvider? || r.Release?
    ensures BuffersTold(rs + [r], n, bs)
  {
    SnocParts(rs, r);
    var hs := Present(rs, n);
    assert Present(rs + [r], n) == hs;
    hide BufferTold, AttrsOf, ContentOf, SerialOf, Present;
    forall i | 0 <= i < |hs| ensures BufferTold(rs + [r], n, bs[i], hs[i]) {
      assert BufferTold(rs, n, bs[i], hs[i]);
      SameHandle(rs, n, bs[i], hs[i]);
      BufferStays(rs, r, n, bs[i], hs[i]);
    }
  }

  lemma SameHandle(rs: seq<Request>, n: string, b: Buffer, h: nat)
    requires BufferTold(rs, n, b, h)
    ensures b.handle == h
  {
  }

  /** The buffer with a request of its own for its content or serial. */
  ghost function Updated(rs: seq<Request>, r: Request, b: Buffer): Buffer
    requires r.SetId? || r.SetFd? || r.Enqueue?
  {
    match r
    case SetId(_, _, id, layout) => b.(content := IdContent(id, layout))
    case SetFd(_, _, fd, layout) => b.(content := FdContent(fd, layout, FdRequests(rs)))
    case Enqueue(_, _, serial) => b.(serial := serial)
  }

  lemma BufferChanges(rs: seq<Request>, r: Request, b: Buffer, h: nat)
    requires (r.SetId? || r.SetFd? || r.Enqueue?) && r.handle == h && BufferTold(rs, r.name, b, h)
    ensures BufferTold(rs + [r], r.name, Updated(rs, r, b), h)
  {
    SnocParts(rs, r);
  }

  lemma BuffersChange(rs: seq<Request>, r: Request, bs: seq<Buffer>, k: nat)
    requires r.SetId? || r.SetFd? || r.Enqueue?
    requires BuffersTold(rs, r.name, bs) && DistinctHandles(bs) && k < |bs| && bs[k].handle == r.handle
    requires forall i | 0 <= i < |bs| :: bs[i].handle < Attaches(rs)
    ensures BuffersTold(rs + [r], r.name, bs[k := Updated(rs, r, bs[k])])
  {
    SnocParts(rs, r);
    var n, hs := r.name, Present(rs, r.name);
    assert Present(rs + [r], n) == hs;
    var bs' := bs[k := Updated(rs, r, bs[k])];
    hide BufferTold, AttrsOf, ContentOf, SerialOf, Present, Updated;
    forall i | 0 <= i < |hs| ensures BufferTold(rs + [r], n, bs'[i], hs[i]) {
      assert BufferTold(rs, n, bs[i], hs[i]);
      SameHandle(rs, n, bs[i], hs[i]);
      if i == k {
        BufferChanges(rs, r, bs[i], hs[i]);
      } else {
        assert bs[i].handle != bs[k].handle;
        BufferStays(rs, r, n, bs[i], hs[i]);
      }
    }
  }

  lemma {:induction false} DroppedAt(hs: seq<nat>, k: nat)
    requires k < |hs| && forall i, j | 0 <= i < j < |hs| :: hs[i] != hs[j]
    ensures Dropped(hs, hs[k]) == RemoveAt(hs, k)
    decreases |hs|
  {
    if k > 0 {
      assert hs[0] != hs[k] && hs[1..][k - 1] == hs[k];
      DroppedAt(hs[1..], k - 1);
      assert RemoveAt(hs, k) == [hs[0]] + RemoveAt(hs[1..], k - 1);
    }
  }

  lemma BuffersLose(rs: seq<Request>, r: Request, bs: seq<Buffer>, k: nat)
    requires r.Detach? && BuffersTold(rs, r.name, bs) && DistinctHandles(bs) && k < |bs| && bs[k].handle == r.handle
    requires forall i | 0 <= i < |bs| :: bs[i].handle < Attaches(rs)
    ensures BuffersTold(rs + [r], r.name, RemoveAt(bs, k))
  {
    SnocParts(rs, r);
    var n, hs := r.name, Present(rs, r.name);
    assert Present(rs + [r], n) == Dropped(hs, r.handle);
    hide BufferTold, AttrsOf, ContentOf, SerialOf, Present, RemoveAt;
    forall i | 0 <= i < |hs| ensures bs[i].handle == hs[i] {
      assert BufferTold(rs, n, bs[i], hs[i]);
      SameHandle(rs, n, bs[i], hs[i]);
    }
    DroppedAt(hs, k);
    forall i | 0 <= i < |hs| - 1 ensures BufferTold(rs + [r], n, RemoveAt(bs, k)[i], RemoveAt(hs, k)[i]) {
      RemoveAtIndex(bs, k, i);
      RemoveAtIndex(hs, k, i);
      var j := if i < k then i else i + 1;
      assert BufferTold(rs, n, bs[j], hs[j]);
      BufferStays(rs, r, n, bs[j], hs[j]);
    }
  }

  /** Nobody has asked anything of a buffer that is not there yet. */
  lemma {:induction false} NothingAsked(rs: seq<Request>, n: string, h: nat)
    requires IsRun(INITIAL, rs) && h >= Attaches(rs)
    ensures ContentOf(rs, n, h) == BLANK && SerialOf(rs, n, h) == 0
    decreases |rs|
  {
    if rs != [] {
      var before, r := rs[..|rs| - 1], rs[|rs| - 1];
      assert rs == before + [r];
      RunSnoc(INITIAL, before, r);
      NothingAsked(before, n, h);
      if (r.SetId? || r.SetFd? || r.Enqueue?) && r.handle == h { HandleIsOld(before, r); }
    }
  }

  lemma {:induction false} HandlesCounted(rs: seq<Request>)
    requires IsRun(INITIAL, rs)
    ensures Run(INITIAL, rs).handles == Attaches(rs)
    decreases |rs|
  {
    if rs != [] {
      var before, r := rs[..|rs| - 1], rs[|rs| - 1];
      assert rs == before + [r];
      RunSnoc(INITIAL, before, r);
      HandlesCounted(before);
      StepHandles(Run(INITIAL, before), r);
    }
  }

  lemma StepHandles(st: State, r: Request)
    requires Enabled(st, r)
    ensures Step(st, r).handles == st.handles + if r.Attach? then 1 else 0
    ensures Step(st, r).fds == st.fds + if r.SetFd? then 1 else 0
  {
  }

  lemma HandleIsOld(rs: seq<Request>, r: Request)
    requires IsRun(INITIAL, rs) && Enabled(Run(INITIAL, rs), r) && (r.SetId? || r.SetFd? || r.Enqueue?)
    ensures r.handle < Attaches(rs)
  {
    RunKeepsInv(INITIAL, rs);
    HandlesCounted(rs);
    var st := Run(INITIAL, rs);
    var q := st.queues[r.name];
    assert QueueInv(q, st.handles);
    var i :| 0 <= i < |q.buffers| && q.buffers[i].handle == r.handle;
    assert BufferInv(q.buffers[i], q, st.handles);
  }

  lemma BuffersGain(rs: seq<Request>, r: Request, bs: seq<Buffer>, b: Buffer)
    requires r.Attach? && IsRun(INITIAL, rs) && BuffersTold(rs, r.name, bs)
    requires forall i | 0 <= i < |bs| :: bs[i].handle < Attaches(rs)
    requires b.handle == Attaches(rs) && b.attrs == r.attrs && b.content == BLANK && b.serial == 0
    ensures BuffersTold(rs + [r], r.name, bs + [b])
  {
    SnocParts(rs, r);
    var n, hs := r.name, Present(rs, r.name);
    assert Present(rs + [r], n) == hs + [Attaches(rs)];
    NothingAsked(rs, n, Attaches(rs));
    assert BufferTold(rs + [r], n, b, Attaches(rs));
    hide BufferTold, AttrsOf, ContentOf, SerialOf, Present;
    forall i | 0 <= i < |hs| ensures BufferTold(rs + [r], n, bs[i], hs[i]) {
      assert BufferTold(rs, n, bs[i], hs[i]);
      SameHandle(rs, n, bs[i], hs[i]);
      BufferStays(rs, r, n, bs[i], hs[i]);
    }
  }

  // ---------- events about several buffers ----------

  lemma {:induction false} GreetingIsCatchUp(rs: seq<Request>, n: string, bs: seq<Buffer>, hs: seq<nat>)
    requires |bs| == |hs| && forall i | 0 <= i < |hs| :: BufferTold(rs, n, bs[i], hs[i])
    ensures CatchUp(bs) == Greeting(rs, n, hs) && CatchUpCloses(bs) == TagsOf(rs, n, hs)
    decreases |bs|
  {
    if bs != [] {
      GreetingIsCatchUp(rs, n, bs[..|bs| - 1], hs[..|hs| - 1]);
      assert BufferTold(rs, n, bs[|bs| - 1], hs[|hs| - 1]);
    }
  }

  lemma {:induction false} FarewellIsDetachAll(bs: seq<Buffer>, hs: seq<nat>)
    requires |bs| == |hs| && forall i | 0 <= i < |hs| :: bs[i].handle == hs[i] && bs[i].consumerSide
    ensures DetachAll(bs) == Farewell(hs)
    decreases |bs|
  {
    if bs != [] { FarewellIsDetachAll(bs[..|bs| - 1], hs[..|hs| - 1]); }
  }

  // ---------- one request ----------

  /** What the requests so far leave at a queue, and what the machine's invariant says of it. */
  ghost predicate Before(rs: seq<Request>, r: Request, q: Queue) {
    && IsRun(INITIAL, rs) && QueueTold(rs, r.name, q)
    && DistinctHandles(q.buffers) && forall i | 0 <= i < |q.buffers| ::
         q.buffers[i].handle < Attaches(rs) && q.buffers[i].providerSide
         && q.buffers[i].consumerSide == q.consumer.Some?
  }

  lemma EnqueueTold(rs: seq<Request>, r: Request, q: Queue)
    requires r.Enqueue? && Before(rs, r, q) && q.consumer.Some? && HasHandle(q.buffers, r.handle)
    ensures QueueTold(rs + [r], r.name, EnqueueBuffer(q, r.handle, r.serial))
  {
    SnocParts(rs, r);
    hide BuffersTold, HasHandle, DistinctHandles, SerialOf, ContentOf, AttrsOf, Present;
    BuffersChange(rs, r, q.buffers, IndexOf(q.buffers, r.handle));
  }

  lemma SetTold(rs: seq<Request>, r: Request, q: Queue)
    requires (r.SetId? || r.SetFd?) && Before(rs, r, q) && HasHandle(q.buffers, r.handle)
    ensures var content := if r.SetId? then IdContent(r.id, r.layout) else FdContent(r.fd, r.layout, FdRequests(rs));
      QueueTold(rs + [r], r.name, SetBuffer(q, r.handle, content))
  {
    SnocParts(rs, r);
    hide BuffersTold, HasHandle, DistinctHandles, SerialOf, ContentOf, AttrsOf, Present;
    BuffersChange(rs, r, q.buffers, IndexOf(q.buffers, r.handle));
  }

  lemma AttachTold(rs: seq<Request>, r: Request, q: Queue)
    requires r.Attach? && Before(rs, r, q)
    ensures QueueTold(rs + [r], r.name, AttachBuffer(q, Attaches(rs), r.attrs))
  {
    SnocParts(rs, r);
    hide BuffersTold, DistinctHandles, SerialOf, ContentOf, AttrsOf, Present;
    var q' := AttachBuffer(q, Attaches(rs), r.attrs);
    BuffersGain(rs, r, q.buffers, q'.buffers[|q.buffers|]);
  }

  lemma DetachTold(rs: seq<Request>, r: Request, q: Queue)
    requires r.Detach? && Before(rs, r, q) && HasHandle(q.buffers, r.handle)
    ensures QueueTold(rs + [r], r.name, DetachBuffer(q, r.handle))
  {
    SnocParts(rs, r);
    hide BuffersTold, HasHandle, DistinctHandles, SerialOf, ContentOf, AttrsOf, Present, RemoveAt;
    BuffersLose(rs, r, q.buffers, IndexOf(q.buffers, r.handle));
  }

  lemma ReleaseTold(rs: seq<Request>, r: Request, q: Queue)
    requires r.Release? && Before(rs, r, q) && HasHandle(q.buffers, r.handle)
    ensures QueueTold(rs + [r], r.name, ReleaseBuffer(q, r.handle))
  {
    SnocParts(rs, r);
    var k := IndexOf(q.buffers, r.handle);
    assert BufferTold(rs, r.name, q.buffers[k], Present(rs, r.name)[k]);
    hide BuffersTold, HasHandle, DistinctHandles, ContentOf, AttrsOf, Present;
    BuffersStay(rs, r, r.name, q.buffers);
  }

  lemma BuffersGone(rs: seq<Request>, r: Request)
    requires r.DestroyConsumer? || r.DestroyProvider?
    ensures BuffersTold(rs + [r], r.name, [])
  {
    SnocParts(rs, r);
  }

  lemma DropConsumerTold(rs: seq<Request>, r: Request, q: Queue)
    requires r.DestroyConsumer? && Before(rs, r, q) && q.consumer.Some?
    ensures QueueTold(rs + [r], r.name, DropConsumer(q))
  {
    SnocParts(rs, r);
    hide BuffersTold, DistinctHandles, ContentOf, AttrsOf, SerialOf, Present;
    BuffersGone(rs, r);
  }

  lemma DropProviderTold(rs: seq<Request>, r: Request, q: Queue)
    requires r.DestroyProvider? && Before(rs, r, q) && q.provider.Some?
    ensures QueueTold(rs + [r], r.name, DropProvider(q))
  {
    SnocParts(rs, r);
    var hs := Present(rs, r.name);
    if q.consumer.Some? {
      forall i | 0 <= i < |hs| ensures q.buffers[i].handle == hs[i] {
        assert BufferTold(rs, r.name, q.buffers[i], hs[i]);
      }
      FarewellIsDetachAll(q.buffers, hs);
    }
    hide BuffersTold, DistinctHandles, ContentOf, AttrsOf, SerialOf, Present;
    BuffersGone(rs, r);
  }

  lemma BuffersSides(rs: seq<Request>, n: string, bs: seq<Buffer>, r: seq<Buffer>)
    requires BuffersTold(rs, n, bs) && |r| == |bs| && forall i | 0 <= i < |bs| :: r[i] == WithConsumerSide(bs[i])
    ensures BuffersTold(rs, n, r)
  {
    forall i | 0 <= i < |bs| ensures BufferTold(rs, n, r[i], Present(rs, n)[i]) {
      assert BufferTold(rs, n, bs[i], Present(rs, n)[i]);
    }
  }

  lemma AddConsumerTold(rs: seq<Request>, r: Request, q: Queue)
    requires r.CreateConsumer? && Before(rs, r, q) && q.consumer.None?
    ensures QueueTold(rs + [r], r.name, AddConsumer(q, r.queueSize, r.width, r.height))
  {
    SnocParts(rs, r);
    GreetingIsCatchUp(rs, r.name, q.buffers, Present(rs, r.name));
    hide BuffersTold, DistinctHandles, ContentOf, AttrsOf, SerialOf, Present, CatchUp, Greeting;
    BuffersStay(rs, r, r.name, q.buffers);
    BuffersSides(rs + [r], r.name, q.buffers, AllWithConsumerSide(q.buffers));
  }

  lemma AddProviderTold(rs: seq<Request>, r: Request, q: Queue)
    requires r.CreateProvider? && Before(rs, r, q) && q.provider.None?
    ensures QueueTold(rs + [r], r.name, AddProvider(q))
  {
    SnocParts(rs, r);
    hide BuffersTold, DistinctHandles, ContentOf, AttrsOf, SerialOf, Present;
    BuffersStay(rs, r, r.name, q.buffers);
  }

  /** A second endpoint is refused. */
  lemma RefusedTold(rs: seq<Request>, r: Request, q: Queue)
    requires Before(rs, r, q)
    requires (r.CreateConsumer? && q.consumer.Some?) || (r.CreateProvider? && q.provider.Some?)
    ensures QueueTold(rs + [r], r.name, q)
  {
    SnocParts(rs, r);
    hide BuffersTold, DistinctHandles, ContentOf, AttrsOf, SerialOf, Present;
    BuffersStay(rs, r, r.name, q.buffers);
    if q.consumer.Some? { assert q.consumer.value.log + [] == q.consumer.value.log; }
    if q.provider.Some? { assert q.provider.value.log + [] == q.provider.value.log; }
  }

  /** The queue that a request works on, as it is told so far; a new one for a name that is not registered. */
  lemma QueueBefore(rs: seq<Request>, r: Request, q: Queue)
    requires IsRun(INITIAL, rs) && NameTold(rs, r.name, Run(INITIAL, rs))
    requires Run(INITIAL, rs).handles == Attaches(rs)
    requires var st := Run(INITIAL, rs);
      if r.name in st.queues then q == st.queues[r.name].(ref := q.ref) else q == Queue(q.ref, None, None, [])
    ensures Before(rs, r, q)
  {
    hide MadeBy, Provided, ConsumerLog, ProviderLog, BuffersTold;
    RunKeepsInv(INITIAL, rs);
    var st := Run(INITIAL, rs);
    if r.name in st.queues {
      assert QueueInv(st.queues[r.name], st.handles);
      forall i | 0 <= i < |q.buffers|
        ensures q.buffers[i].handle < Attaches(rs) && q.buffers[i].providerSide
                && q.buffers[i].consumerSide == q.consumer.Some?
      {
        assert BufferInv(st.queues[r.name].buffers[i], st.queues[r.name], st.handles);
      }
    }
  }

  /** Only the ends of the queue and its buffers are told. */
  lemma ReferencesUntold(rs: seq<Request>, n: string, q: Queue, ref: int)
    ensures QueueTold(rs, n, q.(ref := ref)) <==> QueueTold(rs, n, q)
  {
  }

  lemma RefsCounted(rs: seq<Request>, n: string)
    requires IsRun(INITIAL, rs)
    ensures var st := Run(INITIAL, rs); n in st.queues ==> st.queues[n].ref > 0
  {
    RunKeepsInv(INITIAL, rs);
    var st := Run(INITIAL, rs);
    if n in st.queues { assert QueueInv(st.queues[n], st.handles); }
  }

  lemma OwnCreated(rs: seq<Request>, r: Request)
    requires (r.CreateConsumer? || r.CreateProvider?) && IsRun(INITIAL, rs) && NameTold(rs, r.name, Run(INITIAL, rs))
    requires Run(INITIAL, rs).handles == Attaches(rs)
    ensures NameTold(rs + [r], r.name, Step(Run(INITIAL, rs), r))
  {
    var st, n := Run(INITIAL, rs), r.name;
    var q := QueueNew(st, n);
    QueueBefore(rs, r, q);
    RefsCounted(rs, n);
    hide Before, QueueTold, AddConsumer, AddProvider, IsRun, Run;
    if (if r.CreateConsumer? then q.consumer.Some? else q.provider.Some?) {
      RefusedTold(rs, r, q);
      UnrefTold(rs + [r], n, st, q);
    } else if r.CreateConsumer? {
      AddConsumerTold(rs, r, q);
    } else {
      AddProviderTold(rs, r, q);
    }
  }

  /** The own queue of a request, after it. */
  lemma OwnTold(rs: seq<Request>, r: Request)
    requires IsRun(INITIAL, rs) && Enabled(Run(INITIAL, rs), r) && NameTold(rs, r.name, Run(INITIAL, rs))
    requires Run(INITIAL, rs).handles == Attaches(rs) && Run(INITIAL, rs).fds == FdRequests(rs)
    ensures NameTold(rs + [r], r.name, Step(Run(INITIAL, rs), r))
  {
    var st, n := Run(INITIAL, rs), r.name;
    if n in st.queues { QueueBefore(rs, r, st.queues[n]); }
    hide Before, QueueTold, AttachBuffer, SetBuffer, DetachBuffer, EnqueueBuffer;
    hide ReleaseBuffer, DropConsumer, DropProvider, IsRun, Run;
    match r {
      case CreateConsumer(_, _, _, _) => OwnCreated(rs, r);
      case CreateProvider(_) => OwnCreated(rs, r);
      case Attach(_, _) => AttachTold(rs, r, st.queues[n]);
      case SetId(_, _, _, _) => SetTold(rs, r, st.queues[n]);
      case SetFd(_, _, _, _) => SetTold(rs, r, st.queues[n]);
      case Detach(_, _) => DetachTold(rs, r, st.queues[n]);
      case Enqueue(_, _, _) => EnqueueTold(rs, r, st.queues[n]);
      case Release(_, _) => ReleaseTold(rs, r, st.queues[n]);
      case DestroyConsumer(_) =>
        DropConsumerTold(rs, r, st.queues[n]);
        DropConsumerEnds(rs, st, n);
        UnrefTold(rs + [r], n, st, DropConsumer(st.queues[n]));
      case DestroyProvider(_) =>
        DropProviderTold(rs, r, st.queues[n]);
        DropProviderEnds(rs, st, n);
        UnrefTold(rs + [r], n, st, DropProvider(st.queues[n]));
    }
  }

  /** A queue leaves the registry only when it has no endpoint and no buffer. */
  lemma UnrefTold(rs: seq<Request>, n: string, st: State, q: Queue)
    requires QueueTold(rs, n, q) && (q.ref - 1 <= 0 ==> q.consumer == None && q.provider == None && q.buffers == [])
    ensures NameTold(rs, n, PutUnref(st, n, q))
  {
    ReferencesUntold(rs, n, q, q.ref - 1);
    ReferencesUntold(rs, n, q, 0);
  }

  lemma DropConsumerEnds(rs: seq<Request>, st: State, n: string)
    requires IsRun(INITIAL, rs) && st == Run(INITIAL, rs) && HasConsumer(st, n)
    ensures var q := DropConsumer(st.queues[n]);
      q.ref - 1 <= 0 ==> q.consumer == None && q.provider == None && q.buffers == []
  {
    RunKeepsInv(INITIAL, rs);
    assert QueueInv(st.queues[n], st.handles);
  }

  lemma DropProviderEnds(rs: seq<Request>, st: State, n: string)
    requires IsRun(INITIAL, rs) && st == Run(INITIAL, rs) && HasProvider(st, n)
    ensures var q := DropProvider(st.queues[n]);
      q.ref - 1 <= 0 ==> q.consumer == None && q.provider == None && q.buffers == []
  {
    RunKeepsInv(INITIAL, rs);
    assert QueueInv(st.queues[n], st.handles);
  }

  /** The other queues. */
  lemma OthersTold(rs: seq<Request>, r: Request, n: string)
    requires IsRun(INITIAL, rs) && Enabled(Run(INITIAL, rs), r) && n != r.name
    requires NameTold(rs, n, Run(INITIAL, rs)) && Run(INITIAL, rs).handles == Attaches(rs)
    ensures NameTold(rs + [r], n, Step(Run(INITIAL, rs), r))
  {
    var st := Run(INITIAL, rs);
    var q := if n in st.queues then st.queues[n] else Queue(0, None, None, []);
    QueueBefore(rs, CreateProvider(n), q);
    StepElsewhere(st, r);
    SnocParts(rs, r);
    hide Step, Enabled, IsRun, Run, BuffersTold, DistinctHandles;
    BuffersStay(rs, r, n, q.buffers);
  }

  lemma ClosedTold(rs: seq<Request>, r: Request)
    requires IsRun(INITIAL, rs) && Enabled(Run(INITIAL, rs), r) && StateTold(rs, Run(INITIAL, rs))
    ensures Step(Run(INITIAL, rs), r).closed == Closed(rs + [r])
  {
    var st := Run(INITIAL, rs);
    SnocParts(rs, r);
    assert NameTold(rs, r.name, st);
    var q := QueueNew(st, r.name);
    QueueBefore(rs, r, q);
    GreetingIsCatchUp(rs, r.name, q.buffers, Present(rs, r.name));
    hide IsRun, Run, BuffersTold, DistinctHandles, CatchUpCloses, TagsOf, Present, ConsumerLog, ProviderLog;
    assert Closed(rs) + [] == Closed(rs);
  }

  lemma EndedTold(rs: seq<Request>, r: Request)
    requires IsRun(INITIAL, rs) && Enabled(Run(INITIAL, rs), r) && StateTold(rs, Run(INITIAL, rs))
    ensures var st := Step(Run(INITIAL, rs), r); (st.endedConsumers, st.endedProviders) == EndedLogs(rs + [r])
  {
    SnocParts(rs, r);
    assert NameTold(rs, r.name, Run(INITIAL, rs));
    hide IsRun, Run, BuffersTold, MadeBy, Provided, ConsumerLog, ProviderLog;
    hide AddConsumer, AddProvider, DropConsumer, DropProvider;
    var st := Run(INITIAL, rs);
    assert st.endedConsumers + [] == st.endedConsumers && st.endedProviders + [] == st.endedProviders;
  }

  /** After every run the machine's state is what its requests tell: which queues there are, the consumer's sizes,
      all logs, every buffer's attributes, content and serial, and which fds have been closed. */
  lemma {:induction false} RunIsTold(rs: seq<Request>)
    requires IsRun(INITIAL, rs)
    ensures StateTold(rs, Run(INITIAL, rs))
    decreases |rs|
  {
    if rs == [] {
      forall n ensures NameTold(rs, n, INITIAL) {
      }
    } else {
      hide Step, Enabled, NameTold, Closed, EndedLogs, IsRun, Run;
      var before, r := rs[..|rs| - 1], rs[|rs| - 1];
      assert rs == before + [r];
      RunSnoc(INITIAL, before, r);
      RunIsTold(before);
      var st := Run(INITIAL, before);
      StepHandles(st, r);
      ClosedTold(before, r);
      EndedTold(before, r);
      forall n ensures NameTold(rs, n, Run(INITIAL, rs)) {
        assert NameTold(before, n, st);
        if n == r.name { OwnTold(before, r); } else { OthersTold(before, r, n); }
      }
    }
  }

  // ---------- single requests ----------

  /** An enqueue request sends its own serial to the consumer, and nothing else. */
  lemma EnqueueTells(rs: seq<Request>, n: string, h: nat, v: int)
    requires IsRun(INITIAL, rs + [Enqueue(n, h, v)])
    ensures IsRun(INITIAL, rs)
    ensures var st, st' := Run(INITIAL, rs), Run(INITIAL, rs + [Enqueue(n, h, v)]);
      && HasConsumer(st, n) && HasConsumer(st', n)
      && st'.queues[n].consumer.value.log == st.queues[n].consumer.value.log + [AddBuffer(h, v)]
  {
    hide Step;
    var r := Enqueue(n, h, v);
    RunSnoc(INITIAL, rs, r);
    LogsTold(rs, n);
    LogsTold(rs + [r], n);
    SnocParts(rs, r);
  }

  /** A release request sends the buffer's last serial back to the provider, and nothing else. */
  lemma ReleaseTells(rs: seq<Request>, n: string, h: nat)
    requires IsRun(INITIAL, rs + [Release(n, h)])
    ensures IsRun(INITIAL, rs)
    ensures var st, st' := Run(INITIAL, rs), Run(INITIAL, rs + [Release(n, h)]);
      HasProvider(st, n) ==>
        && HasProvider(st', n)
        && st'.queues[n].provider.value.log
           == st.queues[n].provider.value.log + [ProviderAddBuffer(h, SerialOf(rs, n, h))]
  {
    hide Step, Enabled;
    var r := Release(n, h);
    RunSnoc(INITIAL, rs, r);
    LogsTold(rs, n);
    LogsTold(rs + [r], n);
    SnocParts(rs, r);
  }

  /** A provider that is there is told the sizes of a new consumer, and a new provider those of the consumer that
      is there, as its request gave them. */
  lemma ConnectionTells(rs: seq<Request>, r: Request)
    requires IsRun(INITIAL, rs + [r]) && (r.CreateConsumer? || r.CreateProvider?)
    ensures IsRun(INITIAL, rs)
    ensures var st, st' := Run(INITIAL, rs), Run(INITIAL, rs + [r]);
      && (r.CreateConsumer? && !HasConsumer(st, r.name) && HasProvider(st, r.name) ==>
            && HasProvider(st', r.name)
            && st'.queues[r.name].provider.value.log
               == st.queues[r.name].provider.value.log + [ProviderConnected(r.queueSize, r.width, r.height)])
      && (r.CreateProvider? && !HasProvider(st, r.name) && HasConsumer(st, r.name) ==>
            && HasProvider(st', r.name) && MadeBy(rs, r.name).Some?
            && var c := MadeBy(rs, r.name).value;
               st'.queues[r.name].provider.value.log == [ProviderConnected(c.queueSize, c.width, c.height)])
  {
    hide Step, Enabled;
    RunSnoc(INITIAL, rs, r);
    LogsTold(rs, r.name);
    LogsTold(rs + [r], r.name);
    SnocParts(rs, r);
  }

  lemma LogsTold(rs: seq<Request>, n: string)
    requires IsRun(INITIAL, rs)
    ensures var st := Run(INITIAL, rs);
      && (HasConsumer(st, n) <==> ConsumerLog(rs, n).Some?) && (HasConsumer(st, n) <==> MadeBy(rs, n).Some?)
      && (HasProvider(st, n) <==> ProviderLog(rs, n).Some?) && (HasProvider(st, n) <==> Provided(rs, n))
      && (HasConsumer(st, n) ==> st.queues[n].consumer.value.log == ConsumerLog(rs, n).value)
      && (HasProvider(st, n) ==> st.queues[n].provider.value.log == ProviderLog(rs, n).value)
  {
    hide Run, IsRun, BuffersTold, MadeBy, Provided, ConsumerLog, ProviderLog;
    RunIsTold(rs);
    assert NameTold(rs, n, Run(INITIAL, rs));
  }

  /** Every buffer of a queue has the attributes of its attach request, the content of the last request that set
      it and the serial of the last that enqueued it; the buffers are those attached and not yet gone. */
  lemma BuffersAsAsked(rs: seq<Request>, n: string)
    requires IsRun(INITIAL, rs) && n in Run(INITIAL, rs).queues
    ensures var bs, hs := Run(INITIAL, rs).queues[n].buffers, Present(rs, n);
      && |bs| == |hs|
      && forall i | 0 <= i < |bs| ::
           && bs[i].handle == hs[i] && AttrsOf(rs, hs[i]) == Some(bs[i].attrs)
           && bs[i].content == ContentOf(rs, n, hs[i]) && bs[i].serial == SerialOf(rs, n, hs[i])
  {
    hide Run, IsRun, MadeBy, Provided, ConsumerLog, ProviderLog, Present, AttrsOf, ContentOf, SerialOf;
    RunIsTold(rs);
    assert NameTold(rs, n, Run(INITIAL, rs));
    var bs, hs := Run(INITIAL, rs).queues[n].buffers, Present(rs, n);
    forall i | 0 <= i < |bs| ensures BufferTold(rs, n, bs[i], hs[i]) {
    }
  }
}
