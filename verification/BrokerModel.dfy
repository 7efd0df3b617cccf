/** The buffer-queue broker of bq_mgr.c as a state machine on values.

    One Request is one protocol request or one resource destruction, Step is the effect of its
    handler.  Sending an event appends it to the receiver's log.  The classes of Broker.dfy do
    the same with reference-counted objects and are proved to implement Step. */
module BrokerModel {
  import opened Basics

  /** What a buffer is attached with. */
  datatype Attrs = Attrs(engine: string, width: int, height: int, format: int, flags: int)

  datatype Layout = Layout(offset0: int, stride0: int, offset1: int, stride1: int, offset2: int, stride2: int)

  /** What set_buffer_id or set_buffer_fd put into a buffer; tag numbers the set_buffer_fd request
      an fd came with, so that two fds with the same number are told apart. */
  datatype Content =
    | IdContent(id: int, layout: Layout)
    | FdContent(fd: int, layout: Layout, tag: nat)

  /** calloc: a buffer nobody has set is of type id with everything zero. */
  const BLANK: Content := IdContent(0, Layout(0, 0, 0, 0, 0, 0))

  datatype Buffer = Buffer(handle: nat, attrs: Attrs, content: Content, serial: int,
                           consumerSide: bool, providerSide: bool, ref: int)

  datatype ConsumerEvent =
    | Connected
    | Disconnected
    | Attached(handle: nat, attrs: Attrs)
    | SetBufferId(handle: nat, id: int, layout: Layout)
    | SetBufferFd(handle: nat, fd: int, layout: Layout)
    | Detached(handle: nat)
    | AddBuffer(handle: nat, serial: int)

  datatype ProviderEvent =
    | ProviderConnected(queueSize: int, width: int, height: int)
    | ProviderDisconnected
    | ProviderAddBuffer(handle: nat, serial: int)

  datatype Consumer = Consumer(queueSize: int, width: int, height: int, log: seq<ConsumerEvent>)
  datatype Provider = Provider(log: seq<ProviderEvent>)

  datatype Queue = Queue(ref: int, consumer: Option<Consumer>, provider: Option<Provider>, buffers: seq<Buffer>)

  /** queues is the name registry.  handles and fds count the buffers and fds received so far,
      closed lists the tags of the fds closed, ended* keep the logs of destroyed endpoints. */
  datatype State = State(queues: map<string, Queue>, handles: nat, fds: nat, closed: seq<nat>,
                         endedConsumers: seq<seq<ConsumerEvent>>, endedProviders: seq<seq<ProviderEvent>>)

  const INITIAL: State := State(map[], 0, 0, [], [], [])

  datatype Request =
    | CreateConsumer(name: string, queueSize: int, width: int, height: int)
    | CreateProvider(name: string)
    | Attach(name: string, attrs: Attrs)
    | SetId(name: string, handle: nat, id: int, layout: Layout)
    | SetFd(name: string, handle: nat, fd: int, layout: Layout)
    | Detach(name: string, handle: nat)
    | Enqueue(name: string, handle: nat, serial: int)
    | Release(name: string, handle: nat)
    | DestroyConsumer(name: string)
    | DestroyProvider(name: string)

  // ---------- helpers of the handlers ----------

  function HasHandle(bs: seq<Buffer>, h: nat): bool {
    exists i | 0 <= i < |bs| :: bs[i].handle == h
  }

  /** The position of the first buffer with handle h. */
  function IndexOf(bs: seq<Buffer>, h: nat): (i: nat)
    requires HasHandle(bs, h)
    ensures i < |bs| && bs[i].handle == h
  {
    if bs[0].handle == h then 0
    else
      var i :| 0 <= i < |bs| && bs[i].handle == h;
      assert bs[1..][i - 1].handle == h;
      1 + IndexOf(bs[1..], h)
  }

  function SetEvent(b: Buffer): ConsumerEvent {
    match b.content
    case IdContent(id, layout) => SetBufferId(b.handle, id, layout)
    case FdContent(fd, layout, _) => SetBufferFd(b.handle, fd, layout)
  }

  /** The tags closed by sending SetEvent(b). */
  function SetCloses(b: Buffer): seq<nat> {
    match b.content
    case IdContent(_, _) => []
    case FdContent(_, _, tag) => [tag]
  }

  /** What a consumer that joins late is sent for the buffers already there. */
  function CatchUp(bs: seq<Buffer>): seq<ConsumerEvent> {
    if bs == [] then []
    else
      var b := bs[|bs| - 1];
      CatchUp(bs[..|bs| - 1]) + [Attached(b.handle, b.attrs), SetEvent(b)]
  }

  function CatchUpCloses(bs: seq<Buffer>): seq<nat> {
    if bs == [] then [] else CatchUpCloses(bs[..|bs| - 1]) + SetCloses(bs[|bs| - 1])
  }

  function WithConsumerSide(b: Buffer): Buffer {
    b.(consumerSide := true, ref := b.ref + 1)
  }

  function AllWithConsumerSide(bs: seq<Buffer>): (r: seq<Buffer>)
    ensures |r| == |bs| && forall i | 0 <= i < |bs| :: r[i] == WithConsumerSide(bs[i])
  {
    seq(|bs|, i requires 0 <= i < |bs| => WithConsumerSide(bs[i]))
  }

  /** The detached events of a provider's destruction, one per buffer with a consumer side. */
  function DetachAll(bs: seq<Buffer>): seq<ConsumerEvent> {
    if bs == [] then []
    else
      var rest := DetachAll(bs[..|bs| - 1]);
      if bs[|bs| - 1].consumerSide then rest + [Detached(bs[|bs| - 1].handle)] else rest
  }

  function Tell(c: Option<Consumer>, es: seq<ConsumerEvent>): Option<Consumer> {
    match c
    case None => None
    case Some(k) => Some(k.(log := k.log + es))
  }

  function TellProvider(p: Option<Provider>, es: seq<ProviderEvent>): Option<Provider> {
    match p
    case None => None
    case Some(k) => Some(k.(log := k.log + es))
  }

  /** bq_mgr_buffer_queue_new: the registered queue with one more reference, or a fresh one. */
  function QueueNew(st: State, name: string): Queue {
    if name in st.queues then st.queues[name].(ref := st.queues[name].ref + 1) else Queue(1, None, None, [])
  }

  /** Storing a queue back after bq_object_unref: it leaves the registry with its last reference. */
  function PutUnref(st: State, name: string, q: Queue): State {
    if q.ref - 1 <= 0 then st.(queues := st.queues - {name})
    else st.(queues := st.queues[name := q.(ref := q.ref - 1)])
  }

  function Put(st: State, name: string, q: Queue): State {
    st.(queues := st.queues[name := q])
  }

  // ---------- the handlers, on the queue they work on ----------

  /** create_consumer on a referenced queue without a consumer. */
  function AddConsumer(q: Queue, queueSize: int, width: int, height: int): Queue {
    var hello := if q.provider.Some? then [Connected] else [];
    Queue(q.ref, Some(Consumer(queueSize, width, height, hello + CatchUp(q.buffers))),
          TellProvider(q.provider, [ProviderConnected(queueSize, width, height)]),
          AllWithConsumerSide(q.buffers))
  }

  /** create_provider on a referenced queue without a provider. */
  function AddProvider(q: Queue): Queue {
    var hello :=
      if q.consumer.Some?
      then [ProviderConnected(q.consumer.value.queueSize, q.consumer.value.width, q.consumer.value.height)]
      else [];
    q.(provider := Some(Provider(hello)), consumer := Tell(q.consumer, [Connected]))
  }

  function AttachBuffer(q: Queue, handle: nat, attrs: Attrs): Queue {
    var b := Buffer(handle, attrs, BLANK, 0, false, true, 1);
    var b' := if q.consumer.Some? then WithConsumerSide(b) else b;
    q.(buffers := q.buffers + [b'], consumer := Tell(q.consumer, [Attached(handle, attrs)]))
  }

  function SetBuffer(q: Queue, h: nat, content: Content): Queue
    requires HasHandle(q.buffers, h)
  {
    var i := IndexOf(q.buffers, h);
    var b := q.buffers[i].(content := content);
    q.(buffers := q.buffers[i := b], consumer := Tell(q.consumer, [SetEvent(b)]))
  }

  function DetachBuffer(q: Queue, h: nat): Queue
    requires HasHandle(q.buffers, h)
  {
    q.(buffers := RemoveAt(q.buffers, IndexOf(q.buffers, h)), consumer := Tell(q.consumer, [Detached(h)]))
  }

  function EnqueueBuffer(q: Queue, h: nat, serial: int): Queue
    requires HasHandle(q.buffers, h)
  {
    var i := IndexOf(q.buffers, h);
    q.(buffers := q.buffers[i := q.buffers[i].(serial := serial)], consumer := Tell(q.consumer, [AddBuffer(h, serial)]))
  }

  function ReleaseBuffer(q: Queue, h: nat): Queue
    requires HasHandle(q.buffers, h)
  {
    var b := q.buffers[IndexOf(q.buffers, h)];
    if b.providerSide then q.(provider := TellProvider(q.provider, [ProviderAddBuffer(h, b.serial)])) else q
  }

  /** The queue after its consumer is destroyed, its own reference still counted. */
  function DropConsumer(q: Queue): Queue {
    q.(consumer := None, provider := TellProvider(q.provider, [ProviderDisconnected]), buffers := [])
  }

  /** The queue after its provider is destroyed, its own reference still counted. */
  function DropProvider(q: Queue): Queue {
    q.(provider := None, consumer := Tell(q.consumer, DetachAll(q.buffers) + [Disconnected]), buffers := [])
  }

  // ---------- the handlers, on the whole state ----------

  predicate HasProvider(st: State, name: string) {
    name in st.queues && st.queues[name].provider.Some?
  }

  predicate HasConsumer(st: State, name: string) {
    name in st.queues && st.queues[name].consumer.Some?
  }

  /** The source's demands on a request: the endpoint exists, the buffer is one of its queue's, and
      enqueue needs a connected consumer. */
  predicate Enabled(st: State, r: Request) {
    match r
    case CreateConsumer(_, _, _, _) => true
    case CreateProvider(_) => true
    case Attach(name, _) => HasProvider(st, name)
    case SetId(name, h, _, _) => HasProvider(st, name) && HasHandle(st.queues[name].buffers, h)
    case SetFd(name, h, _, _) => HasProvider(st, name) && HasHandle(st.queues[name].buffers, h)
    case Detach(name, h) => HasProvider(st, name) && HasHandle(st.queues[name].buffers, h)
    case Enqueue(name, h, _) =>
      HasProvider(st, name) && HasConsumer(st, name) && HasHandle(st.queues[name].buffers, h)
    case Release(name, h) => HasConsumer(st, name) && HasHandle(st.queues[name].buffers, h)
    case DestroyConsumer(name) => HasConsumer(st, name)
    case DestroyProvider(name) => HasProvider(st, name)
  }

  function StepCreateConsumer(st: State, name: string, queueSize: int, width: int, height: int): State {
    var q := QueueNew(st, name);
    if q.consumer.Some? then PutUnref(st, name, q)
    else Put(st, name, AddConsumer(q, queueSize, width, height)).(closed := st.closed + CatchUpCloses(q.buffers))
  }

  function StepCreateProvider(st: State, name: string): State {
    var q := QueueNew(st, name);
    if q.provider.Some? then PutUnref(st, name, q) else Put(st, name, AddProvider(q))
  }

  function StepAttach(st: State, name: string, attrs: Attrs): State
    requires HasProvider(st, name)
  {
    Put(st, name, AttachBuffer(st.queues[name], st.handles, attrs)).(handles := st.handles + 1)
  }

  function StepSetId(st: State, name: string, h: nat, id: int, layout: Layout): State
    requires HasProvider(st, name) && HasHandle(st.queues[name].buffers, h)
  {
    Put(st, name, SetBuffer(st.queues[name], h, IdContent(id, layout)))
  }

  function StepSetFd(st: State, name: string, h: nat, fd: int, layout: Layout): State
    requires HasProvider(st, name) && HasHandle(st.queues[name].buffers, h)
  {
    var q := st.queues[name];
    Put(st, name, SetBuffer(q, h, FdContent(fd, layout, st.fds)))
      .(fds := st.fds + 1, closed := if q.consumer.Some? then st.closed + [st.fds] else st.closed)
  }

  function StepDestroyConsumer(st: State, name: string): State
    requires HasConsumer(st, name)
  {
    var q := st.queues[name];
    PutUnref(st, name, DropConsumer(q)).(endedConsumers := st.endedConsumers + [q.consumer.value.log])
  }

  function StepDestroyProvider(st: State, name: string): State
    requires HasProvider(st, name)
  {
    var q := st.queues[name];
    PutUnref(st, name, DropProvider(q)).(endedProviders := st.endedProviders + [q.provider.value.log])
  }

  function Step(st: State, r: Request): State
    requires Enabled(st, r)
  {
    match r
    case CreateConsumer(name, queueSize, width, height) => StepCreateConsumer(st, name, queueSize, width, height)
    case CreateProvider(name) => StepCreateProvider(st, name)
    case Attach(name, attrs) => StepAttach(st, name, attrs)
    case SetId(name, h, id, layout) => StepSetId(st, name, h, id, layout)
    case SetFd(name, h, fd, layout) => StepSetFd(st, name, h, fd, layout)
    case Detach(name, h) => Put(st, name, DetachBuffer(st.queues[name], h))
    case Enqueue(name, h, serial) => Put(st, name, EnqueueBuffer(st.queues[name], h, serial))
    case Release(name, h) => Put(st, name, ReleaseBuffer(st.queues[name], h))
    case DestroyConsumer(name) => StepDestroyConsumer(st, name)
    case DestroyProvider(name) => StepDestroyProvider(st, name)
  }

  /** Step on a request that only changes its own queue: q is the queue afterwards. */
  ghost predicate StepsTo(st: State, r: Request, st': State, q: Queue) {
    && Enabled(st, r) && st' == Step(st, r) && r.name in st'.queues && st'.queues[r.name] == q
  }

  lemma AttachSteps(st: State, name: string, attrs: Attrs) returns (st': State)
    requires HasProvider(st, name)
    ensures StepsTo(st, Attach(name, attrs), st', AttachBuffer(st.queues[name], st.handles, attrs))
    ensures st'.handles == st.handles + 1 && st'.fds == st.fds && st'.closed == st.closed
    ensures st'.endedConsumers == st.endedConsumers && st'.endedProviders == st.endedProviders
  {
    st' := Step(st, Attach(name, attrs));
  }

  lemma SetFdSteps(st: State, name: string, h: nat, fd: int, layout: Layout) returns (st': State)
    requires HasProvider(st, name) && HasHandle(st.queues[name].buffers, h)
    ensures StepsTo(st, SetFd(name, h, fd, layout), st', SetBuffer(st.queues[name], h, FdContent(fd, layout, st.fds)))
    ensures st'.closed == if HasConsumer(st, name) then st.closed + [st.fds] else st.closed
    ensures st'.handles == st.handles && st'.fds == st.fds + 1
    ensures st'.endedConsumers == st.endedConsumers && st'.endedProviders == st.endedProviders
  {
    st' := Step(st, SetFd(name, h, fd, layout));
  }

  /** Only queues have changed. */
  ghost predicate OnlyQueues(st: State, st': State) {
    && st'.handles == st.handles && st'.fds == st.fds && st'.closed == st.closed
    && st'.endedConsumers == st.endedConsumers && st'.endedProviders == st.endedProviders
  }

  lemma SetIdSteps(st: State, name: string, h: nat, id: int, layout: Layout) returns (st': State)
    requires HasProvider(st, name) && HasHandle(st.queues[name].buffers, h)
    ensures StepsTo(st, SetId(name, h, id, layout), st', SetBuffer(st.queues[name], h, IdContent(id, layout)))
    ensures OnlyQueues(st, st')
  {
    st' := Step(st, SetId(name, h, id, layout));
  }

  lemma DetachSteps(st: State, name: string, h: nat) returns (st': State)
    requires HasProvider(st, name) && HasHandle(st.queues[name].buffers, h)
    ensures StepsTo(st, Detach(name, h), st', DetachBuffer(st.queues[name], h)) && OnlyQueues(st, st')
  {
    st' := Step(st, Detach(name, h));
  }

  lemma EnqueueSteps(st: State, name: string, h: nat, serial: int) returns (st': State)
    requires HasProvider(st, name) && HasConsumer(st, name) && HasHandle(st.queues[name].buffers, h)
    ensures StepsTo(st, Enqueue(name, h, serial), st', EnqueueBuffer(st.queues[name], h, serial)) && OnlyQueues(st, st')
  {
    st' := Step(st, Enqueue(name, h, serial));
  }

  lemma ReleaseSteps(st: State, name: string, h: nat) returns (st': State)
    requires HasConsumer(st, name) && HasHandle(st.queues[name].buffers, h)
    ensures StepsTo(st, Release(name, h), st', ReleaseBuffer(st.queues[name], h)) && OnlyQueues(st, st')
  {
    st' := Step(st, Release(name, h));
  }

  ghost predicate SameEnded(st: State, st': State) {
    st'.endedConsumers == st.endedConsumers && st'.endedProviders == st.endedProviders
  }

  lemma CreateConsumerSteps(st: State, r: Request) returns (st': State)
    requires r.CreateConsumer? && (r.name in st.queues ==> st.queues[r.name].ref > 0)
    ensures var q := QueueNew(st, r.name);
      && StepsTo(st, r, st',
                 if q.consumer.Some? then q.(ref := q.ref - 1) else AddConsumer(q, r.queueSize, r.width, r.height))
      && st'.closed == (if q.consumer.Some? then st.closed else st.closed + CatchUpCloses(q.buffers))
      && st'.handles == st.handles && st'.fds == st.fds && SameEnded(st, st')
  {
    st' := Step(st, r);
  }

  lemma CreateProviderSteps(st: State, r: Request) returns (st': State)
    requires r.CreateProvider? && (r.name in st.queues ==> st.queues[r.name].ref > 0)
    ensures var q := QueueNew(st, r.name);
      && StepsTo(st, r, st', if q.provider.Some? then q.(ref := q.ref - 1) else AddProvider(q))
      && st'.closed == st.closed && st'.handles == st.handles && st'.fds == st.fds && SameEnded(st, st')
  {
    st' := Step(st, r);
  }

  /** Step on a request that unregisters its queue. */
  ghost predicate StepsAway(st: State, r: Request, st': State) {
    Enabled(st, r) && st' == Step(st, r) && r.name !in st'.queues
  }

  lemma DestroyConsumerSteps(st: State, name: string) returns (st': State)
    requires HasConsumer(st, name)
    ensures var q := st.queues[name];
      && (if q.ref - 1 <= 0 then StepsAway(st, DestroyConsumer(name), st')
          else StepsTo(st, DestroyConsumer(name), st', DropConsumer(q).(ref := q.ref - 1)))
      && st'.closed == st.closed && st'.handles == st.handles && st'.fds == st.fds
      && st'.endedConsumers == st.endedConsumers + [q.consumer.value.log] && st'.endedProviders == st.endedProviders
  {
    st' := Step(st, DestroyConsumer(name));
  }

  lemma DestroyProviderSteps(st: State, name: string) returns (st': State)
    requires HasProvider(st, name)
    ensures var q := st.queues[name];
      && (if q.ref - 1 <= 0 then StepsAway(st, DestroyProvider(name), st')
          else StepsTo(st, DestroyProvider(name), st', DropProvider(q).(ref := q.ref - 1)))
      && st'.closed == st.closed && st'.handles == st.handles && st'.fds == st.fds
      && st'.endedConsumers == st.endedConsumers && st'.endedProviders == st.endedProviders + [q.provider.value.log]
  {
    st' := Step(st, DestroyProvider(name));
  }

  /** A request changes no queue but its own. */
  lemma StepElsewhere(st: State, r: Request)
    requires Enabled(st, r)
    ensures forall n | n != r.name :: n in Step(st, r).queues <==> n in st.queues
    ensures forall n | n != r.name && n in st.queues :: Step(st, r).queues[n] == st.queues[n]
  {
  }

  /** A run: every request is enabled when its turn comes. */
  ghost predicate IsRun(st: State, rs: seq<Request>)
    decreases |rs|
  {
    rs == [] || (Enabled(st, rs[0]) && IsRun(Step(st, rs[0]), rs[1..]))
  }

  ghost function Run(st: State, rs: seq<Request>): State
    requires IsRun(st, rs)
    decreases |rs|
  {
    if rs == [] then st else Run(Step(st, rs[0]), rs[1..])
  }
}
