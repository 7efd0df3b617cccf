/** The handlers of bq_mgr.c on reference-counted objects, proved to implement BrokerModel.Step.

    A wl_resource is modelled by whether it is there.  Sending an event appends it to the ghost
    log of the receiver.  `freed` is ghost: it records that bq_object_unref has freed the object. */
module Broker {
  import opened Basics
  import opened BrokerModel
  import opened BrokerRuns

  class BqConsumer {
    var ref: int
    var resource: bool
    const bufferQueue: BqQueue
    const queueSize: int
    const width: int
    const height: int
    ghost var log: seq<ConsumerEvent>
    ghost var freed: bool

    constructor (bufferQueue: BqQueue, queueSize: int, width: int, height: int)
      ensures this.bufferQueue == bufferQueue && this.queueSize == queueSize && this.width == width
              && this.height == height
      ensures ref == 1 && resource && log == [] && !freed
    {
      this.bufferQueue, this.queueSize, this.width, this.height := bufferQueue, queueSize, width, height;
      ref, resource, log, freed := 1, true, [], false;
    }

    ghost function Abs(): Consumer
      reads this
    {
      Consumer(queueSize, width, height, log)
    }

    /** One bq_consumer_send_* call: needs a live resource. */
    ghost method Send(e: ConsumerEvent)
      requires resource && !freed
      modifies `log
      ensures log == old(log) + [e]
    {
      log := log + [e];
    }

    method Unref()
      requires !freed
      modifies `ref, `freed
      ensures ref == old(ref) - 1 && freed == (ref <= 0)
    {
      ref := ref - 1;
      if ref <= 0 { freed := true; }
    }
  }

  class BqProvider {
    var ref: int
    var resource: bool
    const bufferQueue: BqQueue
    ghost var log: seq<ProviderEvent>
    ghost var freed: bool

    constructor (bufferQueue: BqQueue)
      ensures this.bufferQueue == bufferQueue
      ensures ref == 1 && resource && log == [] && !freed
    {
      this.bufferQueue := bufferQueue;
      ref, resource, log, freed := 1, true, [], false;
    }

    ghost function Abs(): Provider
      reads this
    {
      Provider(log)
    }

    ghost method Send(e: ProviderEvent)
      requires resource && !freed
      modifies `log
      ensures log == old(log) + [e]
    {
      log := log + [e];
    }

    method Unref()
      requires !freed
      modifies `ref, `freed
      ensures ref == old(ref) - 1 && freed == (ref <= 0)
    {
      ref := ref - 1;
      if ref <= 0 { freed := true; }
    }
  }

  class BqBuffer {
    var ref: int
    var consumer: bool
    var provider: bool
    var serial: int
    var content: Content
    const attrs: Attrs
    const handle: nat
    ghost const queue: BqQueue
    ghost var freed: bool

    constructor (attrs: Attrs, handle: nat, ghost queue: BqQueue)
      ensures this.attrs == attrs && this.handle == handle && this.queue == queue
      ensures ref == 1 && !consumer && provider && serial == 0 && content == BLANK && !freed
    {
      this.attrs, this.handle, this.queue := attrs, handle, queue;
      ref, consumer, provider, serial, content, freed := 1, false, true, 0, BLANK, false;
    }

    ghost function Abs(): Buffer
      reads this
    {
      Buffer(handle, attrs, content, serial, consumer, provider, ref)
    }

    method Ref()
      requires !freed
      modifies `ref
      ensures ref == old(ref) + 1
    {
      ref := ref + 1;
    }

    method Unref()
      requires !freed
      modifies `ref, `freed
      ensures ref == old(ref) - 1 && freed == (ref <= 0)
    {
      ref := ref - 1;
      if ref <= 0 { freed := true; }
    }
  }

  /** bq_buffer_create_consumer_side. */
  method CreateConsumerSide(c: BqConsumer?, buffer: BqBuffer)
    requires c != null ==> c.resource && !c.freed
    requires !buffer.freed && !buffer.consumer
    modifies buffer`consumer, buffer`ref, (if c == null then {} else {c})`log
    ensures c == null ==> buffer.Abs() == old(buffer.Abs())
    ensures c != null ==> buffer.Abs() == WithConsumerSide(old(buffer.Abs()))
                          && c.log == old(c.log) + [Attached(buffer.handle, buffer.attrs)]
  {
    if c == null { return; }
    buffer.consumer := true;
    buffer.Ref();
    c.Send(Attached(buffer.handle, buffer.attrs));
  }

  /** bq_buffer_set_consumer_side; closes is the list of fds it closes. */
  method SetConsumerSide(c: BqConsumer?, buffer: BqBuffer) returns (ghost closes: seq<nat>)
    requires c != null ==> c.resource && !c.freed && buffer.consumer
    modifies (if c == null then {} else {c})`log
    ensures c == null ==> closes == []
    ensures c != null ==> c.log == old(c.log) + [SetEvent(buffer.Abs())] && closes == SetCloses(buffer.Abs())
  {
    closes := [];
    if c == null { return; }
    match buffer.content {
      case IdContent(id, layout) =>
        c.Send(SetBufferId(buffer.handle, id, layout));
      case FdContent(fd, layout, tag) =>
        c.Send(SetBufferFd(buffer.handle, fd, layout));
        closes := [tag];
    }
  }

  lemma CatchUpNothing(was: seq<Buffer>)
    ensures CatchUp(was[..0]) == [] && CatchUpCloses(was[..0]) == []
  {
  }

  lemma CatchUpMore(was: seq<Buffer>, i: nat)
    requires i < |was|
    ensures CatchUp(was[..i + 1]) == CatchUp(was[..i]) + [Attached(was[i].handle, was[i].attrs), SetEvent(was[i])]
    ensures CatchUpCloses(was[..i + 1]) == CatchUpCloses(was[..i]) + SetCloses(was[i])
  {
    assert was[..i + 1][..i] == was[..i];
  }

  /** The body of the catch-up loop. */
  method CatchUpBuffer(c: BqConsumer, buffer: BqBuffer) returns (ghost closes: seq<nat>)
    requires c.resource && !c.freed && !buffer.freed && !buffer.consumer
    modifies buffer, c`log
    ensures buffer.Abs() == WithConsumerSide(old(buffer.Abs())) && !buffer.freed
    ensures c.log == old(c.log) + [Attached(buffer.handle, buffer.attrs), SetEvent(old(buffer.Abs()))]
    ensures closes == SetCloses(old(buffer.Abs()))
  {
    CreateConsumerSide(c, buffer);
    closes := SetConsumerSide(c, buffer);
  }

  /** The loop at the end of create_consumer: replay the buffers already there. */
  method CatchUpConsumer(c: BqConsumer, buffers: seq<BqBuffer>, ghost was: seq<Buffer>) returns (ghost closes: seq<nat>)
    requires c.resource && !c.freed && |was| == |buffers|
    requires forall i | 0 <= i < |buffers| :: buffers[i].Abs() == was[i] && !buffers[i].freed && !buffers[i].consumer
    requires forall i, j | 0 <= i < j < |buffers| :: buffers[i] != buffers[j]
    modifies buffers, c`log
    ensures forall i | 0 <= i < |buffers| :: buffers[i].Abs() == WithConsumerSide(was[i]) && !buffers[i].freed
    ensures c.log == old(c.log) + CatchUp(was) && closes == CatchUpCloses(was)
  {
    hide CatchUp, CatchUpCloses, SetEvent, SetCloses, WithConsumerSide;
    CatchUpNothing(was);
    closes := [];
    ghost var log := c.log;
    for i := 0 to |buffers|
      invariant forall j | 0 <= j < i :: buffers[j].Abs() == WithConsumerSide(was[j]) && !buffers[j].freed
      invariant forall j | i <= j < |buffers| :: buffers[j].Abs() == was[j] && !buffers[j].freed && !buffers[j].consumer
      invariant c.log == log + CatchUp(was[..i]) && closes == CatchUpCloses(was[..i])
    {
      CatchUpMore(was, i);
      var more := CatchUpBuffer(c, buffers[i]);
      closes := closes + more;
      assert log + CatchUp(was[..i]) + [Attached(was[i].handle, was[i].attrs), SetEvent(was[i])]
          == log + (CatchUp(was[..i]) + [Attached(was[i].handle, was[i].attrs), SetEvent(was[i])]);
    }
    assert was[..|buffers|] == was;
  }

  /** One turn of the drain loops, after the buffer has left the list: each live side is destroyed
      and its reference released; a consumer that is still there is told. */
  method DropSides(buf: BqBuffer, told: BqConsumer?)
    requires !buf.freed && buf.ref == One(buf.consumer) + One(buf.provider)
    requires told != null ==> told.resource && !told.freed
    modifies buf, (if told == null then {} else {told})`log
    ensures buf.ref == 0 && buf.freed == (old(buf.freed) || old(buf.consumer) || old(buf.provider))
    ensures told != null ==>
              told.log == if old(buf.consumer) then old(told.log) + [Detached(buf.handle)] else old(told.log)
  {
    if buf.consumer {
      if told != null {
        told.Send(Detached(buf.handle));
      }
      buf.consumer := false;
      buf.Unref();
    }
    if buf.provider {
      buf.provider := false;
      buf.Unref();
    }
  }

  /** bq_object_unref has freed the object. */
  ghost predicate Freed(o: object)
    reads o
  {
    || (o is BqBuffer && (o as BqBuffer).freed)
    || (o is BqConsumer && (o as BqConsumer).freed)
    || (o is BqProvider && (o as BqProvider).freed)
    || (o is BqQueue && (o as BqQueue).freed)
  }

  ghost function AbsAll(bs: seq<BqBuffer>): (r: seq<Buffer>)
    reads bs
    ensures |r| == |bs| && forall i | 0 <= i < |bs| :: r[i] == bs[i].Abs()
  {
    seq(|bs|, i requires 0 <= i < |bs| reads bs => bs[i].Abs())
  }

  class BqQueue {
    var ref: int
    const name: string
    var consumer: BqConsumer?
    var provider: BqProvider?
    var buffers: seq<BqBuffer>
    ghost var freed: bool

    constructor (name: string)
      ensures this.name == name && ref == 1 && consumer == null && provider == null && buffers == [] && !freed
    {
      this.name := name;
      ref, consumer, provider, buffers, freed := 1, null, null, [], false;
    }

    /** The objects a queue is made of. */
    ghost function Parts(): (r: set<object>)
      reads this
      ensures this in r
    {
      {this} + (if consumer == null then {} else {consumer}) + (if provider == null then {} else {provider})
      + (set b | b in buffers)
    }

    /** Everything the queue holds is live and belongs to it. */
    ghost predicate Owns()
      reads this, consumer, provider, buffers
    {
      && !freed
      && (consumer != null ==>
            consumer.bufferQueue == this && consumer.resource && !consumer.freed && consumer.ref == 1)
      && (provider != null ==>
            provider.bufferQueue == this && provider.resource && !provider.freed && provider.ref == 1)
      && (forall i | 0 <= i < |buffers| :: buffers[i].queue == this && !buffers[i].freed)
    }

    ghost function AbsBuffers(): (r: seq<Buffer>)
      reads `buffers, buffers
      ensures |r| == |buffers| && forall i | 0 <= i < |buffers| :: r[i] == buffers[i].Abs()
    {
      AbsAll(buffers)
    }

    ghost function Abs(): Queue
      reads this, consumer, provider, buffers
    {
      Queue(ref,
            if consumer == null then None else Some(consumer.Abs()),
            if provider == null then None else Some(provider.Abs()),
            AbsBuffers())
    }

    /** What the handlers find in a registered queue: each buffer has its provider side, has a consumer
        side exactly when there is a consumer, and its references are those sides. */
    ghost predicate Sound()
      reads this, consumer, provider, buffers
    {
      && Owns() && DistinctHandles(AbsBuffers())
      && (forall i | 0 <= i < |buffers| ::
            buffers[i].provider && buffers[i].consumer == (consumer != null)
            && buffers[i].ref == One(consumer != null) + 1)
    }

    lemma BuffersDistinct()
      requires DistinctHandles(AbsBuffers())
      ensures forall i, j | 0 <= i < j < |buffers| :: buffers[i] != buffers[j]
    {
      forall i, j | 0 <= i < j < |buffers| ensures buffers[i] != buffers[j] {
        assert AbsBuffers()[i].handle != AbsBuffers()[j].handle;
      }
    }

    /** The queue holds the same objects as before. */
    twostate predicate Kept()
      reads this
    {
      consumer == old(consumer) && provider == old(provider) && buffers == old(buffers)
    }

    /** The buffer's place in the queue. */
    lemma PlaceOf(buffer: BqBuffer) returns (k: nat)
      requires DistinctHandles(AbsBuffers()) && buffer in buffers
      ensures k < |buffers| && buffers[k] == buffer
      ensures HasHandle(Abs().buffers, buffer.handle) && IndexOf(Abs().buffers, buffer.handle) == k
      ensures forall i | 0 <= i < |buffers| && i != k :: buffers[i] != buffer
    {
      k :| 0 <= k < |buffers| && buffers[k] == buffer;
      assert AbsBuffers()[k].handle == buffer.handle;
      forall i | 0 <= i < |buffers| && i != k ensures buffers[i] != buffer {
        assert AbsBuffers()[i].handle != AbsBuffers()[k].handle;
      }
    }

    /** The buffer at k alone has changed. */
    twostate lemma OnePlace(k: nat)
      requires buffers == old(buffers) && k < |buffers|
      requires forall i | 0 <= i < |buffers| && i != k :: unchanged(buffers[i])
      ensures AbsBuffers() == old(AbsBuffers())[k := buffers[k].Abs()]
    {
    }

    /** bq_mgr_buffer_provider_enqueue_buffer.  Without a consumer the source dereferences NULL. */
    method Enqueue(buffer: BqBuffer, serial: int)
      requires Sound() && buffer in buffers && consumer != null
      modifies Parts()
      ensures Owns() && Kept() && Parts() == old(Parts())
      ensures old(HasHandle(Abs().buffers, buffer.handle)) && Abs() == EnqueueBuffer(old(Abs()), buffer.handle, serial)
    {
      ghost var k := PlaceOf(buffer);
      buffer.serial := serial;
      consumer.Send(AddBuffer(buffer.handle, buffer.serial));
      OnePlace(k);
    }

    /** bq_mgr_buffer_provider_set_buffer_id and _fd: they differ in the content they store. */
    method Set(buffer: BqBuffer, content: Content) returns (ghost closes: seq<nat>)
      requires Sound() && buffer in buffers
      modifies Parts()
      ensures Owns() && Kept() && Parts() == old(Parts())
      ensures old(HasHandle(Abs().buffers, buffer.handle)) && Abs() == SetBuffer(old(Abs()), buffer.handle, content)
      ensures closes == if consumer != null && content.FdContent? then [content.tag] else []
    {
      ghost var k := PlaceOf(buffer);
      buffer.content := content;
      closes := SetConsumerSide(consumer, buffer);
      hide IndexOf, HasHandle, DistinctHandles;
      OnePlace(k);
    }

    /** bq_mgr_buffer_provider_attatch_buffer. */
    method Attach(attrs: Attrs, handle: nat) returns (buffer: BqBuffer)
      requires Sound() && provider != null
      modifies Parts()
      ensures Owns() && fresh(buffer) && Parts() == old(Parts()) + {buffer}
      ensures Abs() == AttachBuffer(old(Abs()), handle, attrs)
      ensures buffers == old(buffers) + [buffer] && buffer.handle == handle
      ensures consumer == old(consumer) && provider == old(provider)
    {
      buffer := new BqBuffer(attrs, handle, this);
      buffers := buffers + [buffer];
      CreateConsumerSide(consumer, buffer);
      assert AbsBuffers() == old(AbsBuffers()) + [buffer.Abs()];
    }

    /** eina_inlist_remove of a buffer from the queue's list. */
    method InlistRemove(buffer: BqBuffer, ghost k: nat)
      requires k < |buffers| && buffers[k] == buffer && forall i | 0 <= i < |buffers| && i != k :: buffers[i] != buffer
      modifies `buffers
      ensures buffers == RemoveAt(old(buffers), k)
    {
      var i := 0;
      while buffers[i] != buffer
        invariant 0 <= i <= k
        decreases k - i
      {
        i := i + 1;
      }
      buffers := buffers[..i] + buffers[i + 1..];
    }

    /** The first part of detach: the consumer is told and loses its side. */
    method DropConsumerSide(buffer: BqBuffer)
      requires Owns() && buffer in buffers && buffer.ref == One(consumer != null) + 1
      modifies buffer`ref, buffer`freed, (if consumer == null then {} else {consumer})`log
      ensures buffer.ref == 1 && !buffer.freed
      ensures consumer != null ==> consumer.log == old(consumer.log) + [Detached(buffer.handle)]
    {
      if consumer != null {
        consumer.Send(Detached(buffer.handle));
        buffer.Unref();
      }
    }

    /** The statements of detach; k is where the buffer is. */
    method DetachAt(buffer: BqBuffer, ghost k: nat)
      requires Owns() && k < |buffers| && buffers[k] == buffer
      requires forall i | 0 <= i < |buffers| && i != k :: buffers[i] != buffer
      requires buffer.ref == One(consumer != null) + 1
      modifies `buffers, buffer`ref, buffer`freed, (if consumer == null then {} else {consumer})`log
      ensures |buffers| == |old(buffers)| - 1
      ensures forall i | 0 <= i < |buffers| ::
                buffers[i] == old(buffers)[if i < k then i else i + 1] && buffers[i] != buffer
      ensures consumer != null ==> consumer.log == old(consumer.log) + [Detached(buffer.handle)]
      ensures buffer.freed && buffer.ref == 0
    {
      hide RemoveAt;
      ghost var bs := buffers;
      DropConsumerSide(buffer);
      InlistRemove(buffer, k);
      buffer.Unref();
      forall i | 0 <= i < |buffers| ensures buffers[i] == bs[if i < k then i else i + 1] {
        RemoveAtIndex(bs, k, i);
      }
    }

    lemma OthersStay(bs: seq<BqBuffer>, cs: seq<BqBuffer>, k: nat)
      requires k < |bs| && |cs| == |bs| - 1
      requires forall i | 0 <= i < |cs| :: cs[i] == bs[if i < k then i else i + 1] && cs[i] != bs[k]
      ensures forall b :: b in cs <==> b in bs && b != bs[k]
    {
      forall b | b in bs && b != bs[k] ensures b in cs {
        var i :| 0 <= i < |bs| && bs[i] == b;
        assert cs[if i < k then i else i - 1] == b;
      }
    }

    twostate lemma LosesPart(new buffer: BqBuffer)
      requires consumer == old(consumer) && provider == old(provider)
      requires forall b :: b in buffers <==> b in old(buffers) && b != buffer
      ensures Parts() == old(Parts()) - {buffer}
    {
    }

    twostate lemma LosesPlace(k: nat)
      requires k < |old(buffers)| && |buffers| == |old(buffers)| - 1
      requires forall i | 0 <= i < |buffers| ::
                 buffers[i] == old(buffers)[if i < k then i else i + 1] && unchanged(buffers[i])
      ensures AbsBuffers() == RemoveAt(old(AbsBuffers()), k)
    {
      hide RemoveAt;
      ghost var was := old(AbsBuffers());
      forall i | 0 <= i < |buffers| ensures buffers[i].Abs() == RemoveAt(was, k)[i] {
        RemoveAtIndex(was, k, i);
      }
    }

    /** bq_mgr_buffer_provider_detach_buffer. */
    method Detach(buffer: BqBuffer)
      requires Sound() && buffer in buffers
      modifies Parts()
      ensures Owns() && Parts() == old(Parts()) - {buffer}
      ensures old(HasHandle(Abs().buffers, buffer.handle)) && Abs() == DetachBuffer(old(Abs()), buffer.handle)
      ensures buffer.freed && buffer.ref == 0 && consumer == old(consumer) && provider == old(provider)
      ensures forall b :: b in buffers <==> b in old(buffers) && b != buffer
    {
      hide IndexOf, HasHandle, DistinctHandles, RemoveAt;
      ghost var k := PlaceOf(buffer);
      ghost var bs := buffers;
      DetachAt(buffer, k);
      hide Parts;
      OthersStay(bs, buffers, k);
      LosesPart(buffer);
      LosesPlace(k);
    }

    /** bq_mgr_buffer_consumer_release_buffer. */
    method Release(buffer: BqBuffer)
      requires Sound() && buffer in buffers
      modifies Parts()
      ensures Owns() && Kept() && Parts() == old(Parts())
      ensures old(HasHandle(Abs().buffers, buffer.handle)) && Abs() == ReleaseBuffer(old(Abs()), buffer.handle)
    {
      ghost var k := PlaceOf(buffer);
      if provider != null && buffer.provider {
        provider.Send(ProviderAddBuffer(buffer.handle, buffer.serial));
      }
      assert AbsBuffers() == old(AbsBuffers());
    }

    /** The first half of create_consumer: the consumer object, and connected to both ends. */
    method ConnectConsumer(queueSize: int, width: int, height: int) returns (c: BqConsumer)
      requires Owns() && consumer == null
      modifies `consumer, (if provider == null then {} else {provider})`log
      ensures consumer == c && fresh(c) && c.bufferQueue == this && c.resource && !c.freed && c.ref == 1
      ensures provider != null ==> provider.resource && !provider.freed && provider.ref == 1
      ensures c.queueSize == queueSize && c.width == width && c.height == height
      ensures c.log == if provider != null then [Connected] else []
      ensures provider != null ==> provider.log == old(provider.log) + [ProviderConnected(queueSize, width, height)]
    {
      c := new BqConsumer(this, queueSize, width, height);
      consumer := c;
      if provider != null {
        provider.Send(ProviderConnected(queueSize, width, height));
        c.Send(Connected);
      }
    }

    /** The part of create_consumer that follows the check for another consumer. */
    method AttachConsumer(queueSize: int, width: int, height: int) returns (c: BqConsumer, ghost closes: seq<nat>)
      requires Sound() && consumer == null
      modifies this, consumer, provider, buffers
      ensures Owns() && fresh(c) && consumer == c && provider == old(provider) && buffers == old(buffers)
      ensures Abs() == AddConsumer(old(Abs()), queueSize, width, height) && closes == CatchUpCloses(old(AbsBuffers()))
    {
      hide CatchUp, CatchUpCloses, AllWithConsumerSide, AddConsumer, Abs;
      BuffersReady();
      assert Owns();
      hide Sound, Owns, DistinctHandles, WithConsumerSide, BqBuffer.Abs;
      ghost var was := AbsBuffers();
      c := ConnectConsumer(queueSize, width, height);
      closes := CatchUpConsumer(c, buffers, was);
      AllWithConsumerSideIs(was, AbsBuffers());
      AttachedAbs(c);
      OwnsAgain();
    }

    twostate lemma OwnsAgain()
      requires old(Owns()) && freed == old(freed) && buffers == old(buffers) && provider == old(provider)
      requires forall i | 0 <= i < |buffers| :: !buffers[i].freed
      requires consumer != null ==>
                 consumer.bufferQueue == this && consumer.resource && !consumer.freed && consumer.ref == 1
      requires provider != null ==> provider.resource && !provider.freed && provider.ref == 1
      ensures Owns()
    {
    }

    twostate lemma AttachedAbs(new c: BqConsumer)
      requires old(consumer) == null && consumer == c && ref == old(ref) && provider == old(provider)
      requires c.log == (if provider != null then [Connected] else []) + CatchUp(old(AbsBuffers()))
      requires provider != null ==>
                 provider.log == old(provider.log) + [ProviderConnected(c.queueSize, c.width, c.height)]
      requires AbsBuffers() == AllWithConsumerSide(old(AbsBuffers()))
      ensures Abs() == AddConsumer(old(Abs()), c.queueSize, c.width, c.height)
    {
    }

    lemma AllWithConsumerSideIs(bs: seq<Buffer>, r: seq<Buffer>)
      requires |r| == |bs| && forall i | 0 <= i < |bs| :: r[i] == WithConsumerSide(bs[i])
      ensures r == AllWithConsumerSide(bs)
    {
    }

    /** The part of create_provider that follows the check for another provider. */
    method AttachProvider() returns (p: BqProvider)
      requires Sound() && provider == null
      modifies this, consumer, provider, buffers
      ensures Owns() && fresh(p) && Parts() == old(Parts()) + {p}
      ensures provider == p && consumer == old(consumer) && buffers == old(buffers)
      ensures Abs() == AddProvider(old(Abs()))
    {
      p := new BqProvider(this);
      provider := p;
      if consumer != null {
        consumer.Send(Connected);
        p.Send(ProviderConnected(consumer.queueSize, consumer.width, consumer.height));
      }
      assert AbsBuffers() == old(AbsBuffers());
      if consumer != null {
        assert p.log == [ProviderConnected(consumer.queueSize, consumer.width, consumer.height)];
      }
    }

    lemma BuffersReady()
      requires Sound()
      ensures forall i, j | 0 <= i < j < |buffers| :: buffers[i] != buffers[j]
      ensures forall i | 0 <= i < |buffers| ::
                buffers[i].Abs() == AbsBuffers()[i] && !buffers[i].freed && buffers[i].consumer == (consumer != null)
    {
      BuffersDistinct();
    }

    lemma RefsReady(was: seq<Buffer>)
      requires Sound() && was == AbsBuffers()
      ensures forall i | 0 <= i < |was| ::
                was[i].ref == One(was[i].consumerSide) + One(was[i].providerSide) && was[i].providerSide
    {
    }

    /** The loop that empties the buffer list when an endpoint is destroyed. */
    method Drain(told: BqConsumer?, ghost was: seq<Buffer>)
      requires |was| == |buffers| && forall i | 0 <= i < |buffers| :: buffers[i].Abs() == was[i] && !buffers[i].freed
      requires forall i | 0 <= i < |was| ::
                 was[i].ref == One(was[i].consumerSide) + One(was[i].providerSide) && was[i].providerSide
      requires forall i, j | 0 <= i < j < |buffers| :: buffers[i] != buffers[j]
      requires told != null ==> told.resource && !told.freed
      modifies `buffers, buffers, (if told == null then {} else {told})`log
      ensures buffers == [] && forall i | 0 <= i < |old(buffers)| :: old(buffers)[i].ref == 0 && old(buffers)[i].freed
      ensures told != null ==> told.log == old(told.log) + DetachAll(was)
    {
      hide DetachAll;
      ghost var bs, k := buffers, 0;
      DetachNothing(was);
      while buffers != []
        invariant k <= |bs| && buffers == bs[k..]
        invariant forall i | 0 <= i < k :: bs[i].ref == 0 && bs[i].freed
        invariant forall i | k <= i < |bs| :: bs[i].Abs() == was[i] && !bs[i].freed
        invariant told != null ==> told.log == old(told.log) + DetachAll(was[..k]) && told.resource && !told.freed
        decreases |buffers|
      {
        var buf := buffers[0];
        assert buf == bs[k] && buf.Abs() == was[k];
        DetachMore(was, k);
        buffers := buffers[1..];
        DropSides(buf, told);
        k := k + 1;
      }
      assert was[..|bs|] == was;
    }

    lemma DetachNothing(was: seq<Buffer>)
      ensures DetachAll(was[..0]) == []
    {
    }

    lemma DetachMore(was: seq<Buffer>, k: nat)
      requires k < |was|
      ensures DetachAll(was[..k + 1])
           == if was[k].consumerSide then DetachAll(was[..k]) + [Detached(was[k].handle)] else DetachAll(was[..k])
    {
      assert was[..k + 1][..k] == was[..k];
    }

    /** bq_mgr_buffer_consumer_destroy, up to the release of the queue: every buffer goes too. */
    method ConsumerDestroyed()
      requires Sound() && consumer != null
      modifies this, consumer, provider, buffers
      ensures Owns() && consumer == null && provider == old(provider) && buffers == [] && ref == old(ref)
      ensures Abs() == DropConsumer(old(Abs()))
      ensures old(consumer).freed
      ensures forall i | 0 <= i < |old(buffers)| :: old(buffers)[i].ref == 0 && old(buffers)[i].freed
      ensures forall o | o in old(Parts()) :: o in Parts() || Freed(o)
    {
      var bqConsumer := consumer;
      BuffersReady();
      ghost var was := AbsBuffers();
      RefsReady(was);
      hide Sound, DistinctHandles;
      consumer := null;
      bqConsumer.resource := false;
      if provider != null {
        provider.Send(ProviderDisconnected);
      }
      Drain(null, was);
      bqConsumer.Unref();
      assert AbsBuffers() == [];
    }

    /** bq_mgr_buffer_provider_destroy, up to the release of the queue. */
    method ProviderDestroyed()
      requires Sound() && provider != null
      modifies this, consumer, provider, buffers
      ensures Owns() && consumer == old(consumer) && provider == null && buffers == [] && ref == old(ref)
      ensures Abs() == DropProvider(old(Abs()))
      ensures old(provider).freed
      ensures forall i | 0 <= i < |old(buffers)| :: old(buffers)[i].ref == 0 && old(buffers)[i].freed
      ensures forall o | o in old(Parts()) :: o in Parts() || Freed(o)
    {
      hide DistinctHandles, Abs, DropProvider;
      var bqProvider, bqConsumer := provider, consumer;
      BuffersReady();
      ghost var was := AbsBuffers();
      RefsReady(was);
      bqProvider.resource := false;
      provider := null;
      Drain(bqConsumer, was);
      if bqConsumer != null && bqConsumer.resource {
        bqConsumer.Send(Disconnected);
      }
      bqProvider.Unref();
      ProviderDroppedAbs();
    }

    twostate lemma ProviderDroppedAbs()
      requires old(provider) != null && provider == null && ref == old(ref) && consumer == old(consumer)
               && buffers == []
      requires consumer != null ==> consumer.log == old(consumer.log) + DetachAll(old(AbsBuffers())) + [Disconnected]
      ensures Abs() == DropProvider(old(Abs()))
    {
      assert AbsBuffers() == [];
      if consumer != null {
        assert consumer.log == old(consumer.log) + (DetachAll(old(AbsBuffers())) + [Disconnected]);
      }
    }
  }

  class BqMgr {
    var bufferQueues: map<string, BqQueue>
    var handles: nat
    var fds: nat
    ghost var closed: seq<nat>
    ghost var endedConsumers: seq<seq<ConsumerEvent>>
    ghost var endedProviders: seq<seq<ProviderEvent>>
    ghost var repr: set<object>

    constructor ()
      ensures Valid() && Abs() == INITIAL && fresh(repr)
    {
      bufferQueues, handles, fds, closed, endedConsumers, endedProviders := map[], 0, 0, [], [], [];
      repr := {this};
    }

    /** The queue q is registered properly under name. */
    ghost predicate Registered(name: string, q: BqQueue)
      reads this, repr
    {
      q in repr && q.Parts() <= repr && this !in q.Parts() && q.name == name && q.Owns()
    }

    /** The queues are registered under their names, own what they hold, and are within repr. */
    ghost predicate WellFormed()
      reads this, repr
    {
      && this in repr
      && (forall n | n in bufferQueues :: Registered(n, bufferQueues[n]))
    }

    ghost function Abs(): State
      reads this, repr
      requires WellFormed()
    {
      State(map n | n in bufferQueues :: bufferQueues[n].Abs(), handles, fds, closed, endedConsumers, endedProviders)
    }

    /** The object belongs to a registered queue. */
    ghost predicate Held(o: object)
      reads this, repr
    {
      exists n :: n in bufferQueues && bufferQueues[n] in repr && o in bufferQueues[n].Parts()
    }

    /** Nothing is lost: an object that no registered queue holds has been freed. */
    ghost predicate Accounted()
      reads this, repr
    {
      forall o | o in repr && o != this :: Held(o) || Freed(o)
    }

    ghost predicate Valid()
      reads this, repr
    {
      WellFormed() && Inv(Abs()) && Accounted()
    }

    /** An object is freed exactly when no registered queue holds it any more; in particular a name is
        registered exactly as long as its queue is live. */
    lemma FreedExactly(o: object)
      requires Valid() && o in repr && o != this
      ensures Freed(o) <==> !Held(o)
      ensures o is BqQueue ==> var q := o as BqQueue;
        q.freed <==> !(q.name in bufferQueues && bufferQueues[q.name] == q)
    {
      if Held(o) {
        var n :| n in bufferQueues && bufferQueues[n] in repr && o in bufferQueues[n].Parts();
        HeldIsLive(n, o);
      } else if o is BqQueue {
        var q := o as BqQueue;
        assert q in q.Parts();
      }
    }

    lemma HeldIsLive(n: string, o: object)
      requires WellFormed() && n in bufferQueues && o in bufferQueues[n].Parts()
      ensures !Freed(o) && (o is BqQueue ==> o == bufferQueues[n] && bufferQueues[n].name == n)
    {
      assert Registered(n, bufferQueues[n]);
    }

    /** What has gone out of the queue under name has been freed, and what is new is in it. */
    twostate predicate Released(new name: string)
      requires old(WellFormed())
      reads this, repr
    {
      forall o: object | o in repr && o != this && (o !in old(repr) || o in old(Scope(name))) ::
        Freed(o) || (name in bufferQueues && bufferQueues[name] in repr && o in bufferQueues[name].Parts())
    }

    twostate lemma CommitAccounted(new name: string)
      requires old(WellFormed()) && old(Accounted()) && WellFormed() && OthersKept(name) && WithinScope(name)
               && Released(name)
      ensures Accounted()
    {
      forall o: object | o in repr && o != this ensures Held(o) || Freed(o) {
        if o in old(repr) && o !in old(Scope(name)) {
          assert unchanged(o);
          if old(Held(o)) {
            var n :| old(n in bufferQueues && bufferQueues[n] in repr && o in bufferQueues[n].Parts());
            OthersParts(name, n);
          }
        } else if !Freed(o) {
          assert name in bufferQueues;
        }
      }
    }

    twostate lemma OthersParts(new name: string, new n: string)
      requires old(WellFormed()) && WellFormed() && OthersKept(name) && n != name && n in old(bufferQueues)
      ensures n in bufferQueues && bufferQueues[n] in repr && bufferQueues[n].Parts() == old(bufferQueues[n].Parts())
    {
      assert unchanged(bufferQueues[n]);
      assert Registered(n, bufferQueues[n]);
    }

    /** Of the queues other than name nothing has changed. */
    twostate predicate OthersKept(new name: string)
      requires old(WellFormed())
      reads this, repr
    {
      && old(repr) <= repr
      && (forall n | n != name :: n in bufferQueues <==> n in old(bufferQueues))
      && (forall n | n != name && n in bufferQueues :: bufferQueues[n] == old(bufferQueues[n]))
      && (forall n, o: object | n != name && n in bufferQueues && o in old(bufferQueues[n].Parts()) :: unchanged(o))
    }

    twostate lemma OtherKept(new name: string, new n: string)
      requires old(WellFormed()) && OthersKept(name) && n != name && n in bufferQueues
      ensures bufferQueues[n].Abs() == old(bufferQueues[n].Abs()) && Registered(n, bufferQueues[n])
    {
      var q := bufferQueues[n];
      assert unchanged(q);
      assert q.consumer != null ==> unchanged(q.consumer);
      assert q.provider != null ==> unchanged(q.provider);
      forall i | 0 <= i < |q.buffers| ensures unchanged(q.buffers[i]) {
        assert q.buffers[i] in old(q.Parts());
      }
      assert q.AbsBuffers() == old(q.AbsBuffers());
    }

    /** The queue under name, and what is not in a queue, are as st' says. */
    ghost predicate Matches(name: string, st': State)
      reads this, repr
    {
      && this in repr
      && (name in bufferQueues <==> name in st'.queues)
      && (name in bufferQueues ==>
            && Registered(name, bufferQueues[name])
            && bufferQueues[name].Abs() == st'.queues[name])
      && handles == st'.handles && fds == st'.fds && closed == st'.closed
      && endedConsumers == st'.endedConsumers && endedProviders == st'.endedProviders
    }

    twostate lemma CommitWellFormed(new name: string, new st': State)
      requires old(WellFormed()) && OthersKept(name) && Matches(name, st')
      ensures WellFormed()
    {
      hide Registered, OthersKept;
      forall n | n in bufferQueues ensures Registered(n, bufferQueues[n]) {
        if n != name { OtherKept(name, n); }
      }
    }

    twostate lemma CommitQueues(new name: string, new st: State, new st': State)
      requires old(WellFormed()) && WellFormed() && OthersKept(name) && Matches(name, st') && st == old(Abs())
      requires forall n | n != name :: n in st'.queues <==> n in st.queues
      requires forall n | n != name && n in st'.queues :: st'.queues[n] == st.queues[n]
      ensures Abs().queues == st'.queues
    {
      hide WellFormed, Registered, BqQueue.Abs, BqQueue.Owns, BqQueue.Parts;
      forall n | n in bufferQueues ensures n in st'.queues && bufferQueues[n].Abs() == st'.queues[n] {
        if n != name { OtherKept(name, n); }
      }
    }

    /** A handler that leaves its own queue as Step says, and the others alone, implements Step. */
    twostate lemma Commit(new r: Request)
      requires old(Valid()) && Enabled(old(Abs()), r) && OthersKept(r.name)
      requires Matches(r.name, Step(old(Abs()), r)) && WithinScope(r.name) && Released(r.name)
      ensures Valid() && Abs() == Step(old(Abs()), r)
    {
      hide Step, Enabled, Inv, Accounted, WithinScope, Released;
      var st := old(Abs());
      var st' := Step(st, r);
      StepKeepsInv(st, r);
      StepElsewhere(st, r);
      CommitWellFormed(r.name, st');
      CommitQueues(r.name, st, st');
      CommitAccounted(r.name);
    }

    /** All that may change while the queue under name is served: that queue's objects and the manager. */
    ghost function Scope(name: string): set<object>
      reads this, repr
      requires WellFormed()
    {
      {this} + if name in bufferQueues then bufferQueues[name].Parts() else {}
    }

    twostate lemma OnlyScopeChanged(new name: string)
      requires old(WellFormed()) && old(repr) <= repr
      requires forall o: object | o in old(repr) && o !in old(Scope(name)) :: unchanged(o)
      requires forall n | n != name :: n in bufferQueues <==> n in old(bufferQueues)
      requires forall n | n != name && n in bufferQueues :: bufferQueues[n] == old(bufferQueues[n])
      ensures OthersKept(name)
    {
      var ns := old(bufferQueues);
      forall n, o: object | n != name && n in bufferQueues && o in old(bufferQueues[n].Parts()) ensures unchanged(o) {
        assert old(Registered(n, bufferQueues[n]));
        assert old(bufferQueues[n].Parts()) !! old(Scope(name)) by { OldScopeDisjoint(name, n); }
      }
    }

    twostate lemma OldScopeDisjoint(new name: string, new n: string)
      requires old(WellFormed()) && n != name && n in old(bufferQueues)
      ensures old(bufferQueues[n].Parts()) !! old(Scope(name))
    {
      if name in old(bufferQueues) {
        var p, q := old(bufferQueues[n]), old(bufferQueues[name]);
        assert old(Registered(n, p)) && old(Registered(name, q)) && p.name != q.name;
      }
    }

    /** The handler has done what Step says for the request r, has left the other queues' objects alone, and
        what it has added to the objects of the manager is new. */
    twostate predicate Did(new r: Request)
      reads this, repr
    {
      && old(Valid()) && Enabled(old(Abs()), r)
      && Valid() && Abs() == Step(old(Abs()), r)
      && OthersKept(r.name) && fresh(repr - old(repr))
    }

    /** The endpoints of other queues can go on with the same buffers. */
    twostate lemma OthersServe(new r: Request, new n: string)
      requires Did(r) && n != r.name && n in old(bufferQueues)
      ensures n in bufferQueues && bufferQueues[n] == old(bufferQueues[n]) && old(bufferQueues[n]).Kept()
    {
      hide Valid, Step, Enabled, Abs;
      assert old(bufferQueues[n]) in old(bufferQueues[n].Parts());
    }

    /** The requests of q's own endpoints leave its objects in their places. */
    twostate predicate Stays(q: BqQueue)
      reads this, q
    {
      bufferQueues == old(bufferQueues) && q.Kept()
    }

    /** p is the provider of a registered queue. */
    ghost predicate Serves(p: BqProvider)
      reads this, p.bufferQueue
    {
      var q := p.bufferQueue;
      q.name in bufferQueues && bufferQueues[q.name] == q && q.provider == p
    }

    /** c is the consumer of a registered queue. */
    ghost predicate Feeds(c: BqConsumer)
      reads this, c.bufferQueue
    {
      var q := c.bufferQueue;
      q.name in bufferQueues && bufferQueues[q.name] == q && q.consumer == c
    }

    /** What the invariant says about a registered queue's objects. */
    lemma QueueFacts(q: BqQueue)
      requires Valid() && q.name in bufferQueues && bufferQueues[q.name] == q
      ensures Abs().queues[q.name] == q.Abs()
      ensures q.ref > 0 && q.ref == One(q.consumer != null) + One(q.provider != null)
      ensures q.Sound() && Scope(q.name) == {this} + q.Parts() && q.Parts() <= repr && this !in q.Parts()
    {
      assert Abs().queues[q.name] == q.Abs();
      assert QueueInv(q.Abs(), handles);
      forall i | 0 <= i < |q.buffers|
        ensures q.buffers[i].consumer == (q.consumer != null) && q.buffers[i].provider
        ensures q.buffers[i].ref == One(q.consumer != null) + 1
      {
        assert q.AbsBuffers()[i] == q.buffers[i].Abs();
        assert BufferInv(q.AbsBuffers()[i], q.Abs(), handles);
      }
    }

    /** The common end of the handlers that leave their queue q registered. */
    twostate lemma CommitQueue(new r: Request, new q: BqQueue, new st': State)
      requires old(Valid()) && Enabled(old(Abs()), r) && st' == Step(old(Abs()), r)
      requires q.name == r.name && bufferQueues == old(bufferQueues)[r.name := q]
      requires this in repr && old(repr) <= repr && q in repr && q.Owns() && q.Parts() <= repr && this !in q.Parts()
      requires fresh(repr - old(repr)) && forall o: object | o in old(repr) && o !in old(Scope(r.name)) :: unchanged(o)
      requires forall o: object | o in repr && o !in old(repr) :: o in q.Parts()
      requires forall o: object | o in old(Scope(r.name)) && o != this :: o in q.Parts() || Freed(o)
      requires r.name in st'.queues && q.Abs() == st'.queues[r.name]
      requires handles == st'.handles && fds == st'.fds && closed == st'.closed
      requires endedConsumers == st'.endedConsumers && endedProviders == st'.endedProviders
      ensures Did(r)
    {
      hide Step, Enabled, Inv, BqQueue.Abs, BqQueue.Owns;
      OnlyScopeChanged(r.name);
      Commit(r);
    }

    /** The common end of the handlers that unregister their queue. */
    twostate lemma CommitFreed(new r: Request, new st': State)
      requires old(Valid()) && Enabled(old(Abs()), r) && st' == Step(old(Abs()), r)
      requires bufferQueues == old(bufferQueues) - {r.name} && this in repr && old(repr) <= repr
      requires forall o: object | o in old(repr) && o !in old(Scope(r.name)) :: unchanged(o)
      requires repr == old(repr) && forall o: object | o in old(Scope(r.name)) && o != this :: Freed(o)
      requires r.name !in st'.queues
      requires handles == st'.handles && fds == st'.fds && closed == st'.closed
      requires endedConsumers == st'.endedConsumers && endedProviders == st'.endedProviders
      ensures Did(r)
    {
      hide Step, Enabled, Inv, BqQueue.Abs, BqQueue.Owns;
      OnlyScopeChanged(r.name);
      Commit(r);
    }

    /** A queue is not affected by what does not touch its objects. */
    twostate lemma Untouched(q: BqQueue)
      requires forall o: object | o in old(q.Parts()) :: unchanged(o)
      ensures q.Abs() == old(q.Abs()) && q.Owns() == old(q.Owns()) && q.Parts() == old(q.Parts())
              && q.Sound() == old(q.Sound())
    {
      assert q in old(q.Parts());
      assert unchanged(q);
      assert q.consumer != null ==> q.consumer in old(q.Parts());
      assert q.provider != null ==> q.provider in old(q.Parts());
      assert q.consumer != null ==> unchanged(q.consumer);
      assert q.provider != null ==> unchanged(q.provider);
      forall i | 0 <= i < |q.buffers| ensures unchanged(q.buffers[i]) {
        assert q.buffers[i] in old(q.Parts());
      }
      assert q.AbsBuffers() == old(q.AbsBuffers());
    }

    /** A set_buffer_fd request arrives: its fd gets the next tag. */
    method CountFd(q: BqQueue) returns (tag: nat)
      requires this !in q.Parts() && q.Sound()
      modifies `fds
      ensures tag == old(fds) && fds == tag + 1
      ensures q.Sound() && q.Abs() == old(q.Abs()) && q.Parts() == old(q.Parts())
    {
      tag := fds;
      fds := fds + 1;
      Untouched(q);
    }

    /** The fds that have been closed are counted. */
    ghost method Close(q: BqQueue, closes: seq<nat>)
      requires this !in q.Parts() && q.Owns()
      modifies `closed
      ensures closed == old(closed) + closes
      ensures q.Owns() && q.Abs() == old(q.Abs()) && q.Parts() == old(q.Parts())
    {
      closed := closed + closes;
      Untouched(q);
    }

    /** set_buffer_fd on its queue, with the request and the closed fd counted. */
    method CountAndSetFd(q: BqQueue, buffer: BqBuffer, fd: int, layout: Layout)
      requires this !in q.Parts() && q.Sound() && buffer in q.buffers
      modifies `fds, `closed, q.Parts()
      ensures q.Owns() && q.Kept() && q.Parts() == old(q.Parts()) && fds == old(fds) + 1
      ensures closed == if q.consumer == null then old(closed) else old(closed) + [old(fds)]
      ensures old(HasHandle(q.Abs().buffers, buffer.handle))
      ensures q.Abs() == SetBuffer(old(q.Abs()), buffer.handle, FdContent(fd, layout, old(fds)))
    {
      hide SetBuffer, BqQueue.Abs, BqQueue.Owns, BqQueue.Sound;
      var tag := CountFd(q);
      ghost var closes := q.Set(buffer, FdContent(fd, layout, tag));
      Close(q, closes);
    }

    /** attach on its queue, with the buffer counted. */
    method CountAndAttach(q: BqQueue, attrs: Attrs) returns (buffer: BqBuffer)
      requires this !in q.Parts() && q.Sound() && q.provider != null
      modifies `handles, `repr, q.Parts()
      ensures q.Owns() && fresh(buffer) && q.Parts() == old(q.Parts()) + {buffer}
      ensures q.Abs() == AttachBuffer(old(q.Abs()), old(handles), attrs)
      ensures q.buffers == old(q.buffers) + [buffer] && buffer.handle == old(handles)
      ensures q.consumer == old(q.consumer) && q.provider == old(q.provider)
      ensures handles == old(handles) + 1 && repr == old(repr) + {buffer}
    {
      hide AttachBuffer, BqQueue.Abs, BqQueue.Owns, BqQueue.Sound;
      buffer := q.Attach(attrs, handles);
      CountBuffer(q, buffer);
    }

    /** A new buffer joins the objects of the manager. */
    method CountBuffer(q: BqQueue, buffer: BqBuffer)
      requires this !in q.Parts() && q.Owns()
      modifies `handles, `repr
      ensures handles == old(handles) + 1 && repr == old(repr) + {buffer}
      ensures q.Owns() && q.Abs() == old(q.Abs()) && q.Parts() == old(q.Parts())
    {
      handles := handles + 1;
      repr := repr + {buffer};
      Untouched(q);
    }

    lemma QueueReady(q: BqQueue)
      requires Valid() && q.name in bufferQueues && bufferQueues[q.name] == q
      ensures WellFormed() && bufferQueues == bufferQueues[q.name := q] && q.Abs().ref == q.ref
      ensures q.consumer != null ==> q.Abs().consumer.Some? && q.Abs().consumer.value.log == q.consumer.log
      ensures q.provider != null ==> q.Abs().provider.Some? && q.Abs().provider.value.log == q.provider.log
    {
    }

    lemma ProviderCan(p: BqProvider)
      requires Valid() && Serves(p)
      ensures HasProvider(Abs(), p.bufferQueue.name)
      ensures HasConsumer(Abs(), p.bufferQueue.name) <==> p.bufferQueue.consumer != null
    {
    }

    lemma ConsumerCan(c: BqConsumer)
      requires Valid() && Feeds(c)
      ensures HasConsumer(Abs(), c.bufferQueue.name)
      ensures HasProvider(Abs(), c.bufferQueue.name) <==> c.bufferQueue.provider != null
    {
    }

    lemma BufferCan(q: BqQueue, buffer: BqBuffer)
      requires Valid() && q.name in bufferQueues && bufferQueues[q.name] == q && buffer in q.buffers
      ensures HasHandle(Abs().queues[q.name].buffers, buffer.handle)
    {
      QueueFacts(q);
      var k := q.PlaceOf(buffer);
    }

    /** bq_mgr_buffer_provider_enqueue_buffer.  Without a consumer the source dereferences NULL. */
    method ProviderEnqueueBuffer(p: BqProvider, buffer: BqBuffer, serial: int)
      requires Valid() && Serves(p) && buffer in p.bufferQueue.buffers && p.bufferQueue.consumer != null
      modifies repr
      ensures Did(Enqueue(p.bufferQueue.name, buffer.handle, serial)) && repr == old(repr)
      ensures Valid() && fresh(repr - old(repr))
      ensures Serves(p) && Stays(p.bufferQueue)
    {
      hide Valid, BqQueue.Sound, BqQueue.Abs, BqQueue.Owns, HasHandle, EnqueueBuffer, Enabled, HasProvider,
           HasConsumer, Step;
      var bq := p.bufferQueue;
      QueueReady(bq);
      ghost var st, r := Abs(), Enqueue(bq.name, buffer.handle, serial);
      QueueFacts(bq);
      ProviderCan(p);
      BufferCan(bq, buffer);
      ghost var st' := EnqueueSteps(st, bq.name, buffer.handle, serial);
      bq.Enqueue(buffer, serial);
      CommitQueue(r, bq, st');
    }

    /** bq_mgr_buffer_provider_set_buffer_id. */
    method ProviderSetBufferId(p: BqProvider, buffer: BqBuffer, id: int, layout: Layout)
      requires Valid() && Serves(p) && buffer in p.bufferQueue.buffers
      modifies repr
      ensures Did(SetId(p.bufferQueue.name, buffer.handle, id, layout)) && repr == old(repr)
      ensures Valid() && fresh(repr - old(repr))
      ensures Serves(p) && Stays(p.bufferQueue)
    {
      hide Valid, BqQueue.Sound, BqQueue.Abs, BqQueue.Owns, HasHandle, SetBuffer, Enabled, HasProvider, HasConsumer,
           Step;
      var bq := p.bufferQueue;
      QueueReady(bq);
      ghost var st, r := Abs(), SetId(bq.name, buffer.handle, id, layout);
      QueueFacts(bq);
      ProviderCan(p);
      BufferCan(bq, buffer);
      ghost var st' := SetIdSteps(st, bq.name, buffer.handle, id, layout);
      var closes := bq.Set(buffer, IdContent(id, layout));
      CommitQueue(r, bq, st');
    }

    /** bq_mgr_buffer_provider_set_buffer_fd. */
    method ProviderSetBufferFd(p: BqProvider, buffer: BqBuffer, fd: int, layout: Layout)
      requires Valid() && Serves(p) && buffer in p.bufferQueue.buffers
      modifies repr
      ensures Did(SetFd(p.bufferQueue.name, buffer.handle, fd, layout)) && repr == old(repr)
      ensures Valid() && fresh(repr - old(repr))
      ensures Serves(p) && Stays(p.bufferQueue)
    {
      hide Valid, BqQueue.Sound, BqQueue.Abs, BqQueue.Owns, HasHandle, SetBuffer, Enabled, HasProvider, HasConsumer,
           Step;
      var bq := p.bufferQueue;
      QueueReady(bq);
      ghost var st, r := Abs(), SetFd(bq.name, buffer.handle, fd, layout);
      QueueFacts(bq);
      ProviderCan(p);
      BufferCan(bq, buffer);
      ghost var st' := SetFdSteps(st, bq.name, buffer.handle, fd, layout);
      CountAndSetFd(bq, buffer, fd, layout);
      CommitQueue(r, bq, st');
    }

    /** bq_mgr_buffer_provider_attatch_buffer. */
    method ProviderAttachBuffer(p: BqProvider, attrs: Attrs) returns (buffer: BqBuffer)
      requires Valid() && Serves(p)
      modifies repr
      ensures Did(BrokerModel.Attach(p.bufferQueue.name, attrs)) && repr == old(repr) + {buffer} && fresh(buffer)
      ensures Valid() && fresh(repr - old(repr))
      ensures Serves(p) && bufferQueues == old(bufferQueues) && p.bufferQueue.consumer == old(p.bufferQueue.consumer)
      ensures p.bufferQueue.buffers == old(p.bufferQueue.buffers) + [buffer] && buffer.handle == old(handles)
    {
      hide Valid, BqQueue.Sound, AttachBuffer, Enabled, HasProvider, HasConsumer, Step;
      var bq := p.bufferQueue;
      QueueReady(bq);
      ghost var st, r := Abs(), BrokerModel.Attach(bq.name, attrs);
      QueueFacts(bq);
      ProviderCan(p);
      ghost var st' := AttachSteps(st, bq.name, attrs);
      buffer := CountAndAttach(bq, attrs);
      CommitQueue(r, bq, st');
    }

    /** bq_mgr_buffer_provider_detach_buffer: the buffer object is freed. */
    method ProviderDetachBuffer(p: BqProvider, buffer: BqBuffer)
      requires Valid() && Serves(p) && buffer in p.bufferQueue.buffers
      modifies repr
      ensures Did(BrokerModel.Detach(p.bufferQueue.name, buffer.handle)) && repr == old(repr)
      ensures Valid() && fresh(repr - old(repr))
      ensures buffer.freed && buffer.ref == 0
      ensures Serves(p) && bufferQueues == old(bufferQueues) && p.bufferQueue.consumer == old(p.bufferQueue.consumer)
      ensures forall b :: b in p.bufferQueue.buffers <==> b in old(p.bufferQueue.buffers) && b != buffer
    {
      hide Valid, BqQueue.Sound, BqQueue.Abs, BqQueue.Owns, HasHandle, DetachBuffer, Enabled, HasProvider,
           HasConsumer, Step;
      var bq := p.bufferQueue;
      QueueReady(bq);
      ghost var st, r := Abs(), BrokerModel.Detach(bq.name, buffer.handle);
      QueueFacts(bq);
      ProviderCan(p);
      BufferCan(bq, buffer);
      ghost var st' := DetachSteps(st, bq.name, buffer.handle);
      bq.Detach(buffer);
      CommitQueue(r, bq, st');
    }

    /** bq_mgr_buffer_consumer_release_buffer. */
    method ConsumerReleaseBuffer(c: BqConsumer, buffer: BqBuffer)
      requires Valid() && Feeds(c) && buffer in c.bufferQueue.buffers
      modifies repr
      ensures Did(BrokerModel.Release(c.bufferQueue.name, buffer.handle)) && repr == old(repr)
      ensures Valid() && fresh(repr - old(repr))
      ensures Feeds(c) && Stays(c.bufferQueue)
    {
      hide Valid, BqQueue.Sound, BqQueue.Abs, BqQueue.Owns, HasHandle, ReleaseBuffer, Enabled, HasProvider,
           HasConsumer, Step;
      var bq := c.bufferQueue;
      QueueReady(bq);
      ghost var st, r := Abs(), BrokerModel.Release(bq.name, buffer.handle);
      QueueFacts(bq);
      ConsumerCan(c);
      BufferCan(bq, buffer);
      ghost var st' := ReleaseSteps(st, bq.name, buffer.handle);
      bq.Release(buffer);
      CommitQueue(r, bq, st');
    }

    /** bq_mgr_buffer_queue_free, when nothing refers to the queue any more: it holds no endpoint and no
        buffer, so all that is left is to unregister it. */
    method QueueFree(q: BqQueue)
      requires q.name in bufferQueues && q.consumer == null && q.provider == null && q.buffers == []
      modifies `bufferQueues
      ensures bufferQueues == old(bufferQueues) - {q.name}
    {
      bufferQueues := bufferQueues - {q.name};
    }

    /** bq_object_unref of a queue. */
    method QueueUnref(q: BqQueue)
      requires this !in q.Parts() && q.Owns() && q.name in bufferQueues
      requires q.ref <= 1 ==> q.consumer == null && q.provider == null && q.buffers == []
      modifies q`ref, q`freed, `bufferQueues
      ensures q.ref == old(q.ref) - 1
      ensures q.ref <= 0 ==> q.freed && bufferQueues == old(bufferQueues) - {q.name}
      ensures q.ref > 0 ==> bufferQueues == old(bufferQueues) && q.Owns() && q.Abs() == old(q.Abs()).(ref := q.ref)
    {
      q.ref := q.ref - 1;
      if q.ref <= 0 {
        QueueFree(q);
        q.freed := true;
      }
    }

    /** bq_mgr_buffer_queue_new finds the queue. */
    method QueueRef(q: BqQueue)
      requires q.Sound()
      modifies q`ref
      ensures q.ref == old(q.ref) + 1 && q.Sound() && q.Abs() == old(q.Abs()).(ref := q.ref)
    {
      q.ref := q.ref + 1;
    }

    /** bq_mgr_buffer_queue_new makes one. */
    method QueueAdd(name: string) returns (q: BqQueue)
      modifies `bufferQueues, `repr
      ensures fresh(q) && q.name == name && q.Sound() && q.Abs() == Queue(1, None, None, []) && q.Parts() == {q}
      ensures q.consumer == null && q.provider == null && q.buffers == []
      ensures bufferQueues == old(bufferQueues)[name := q] && repr == old(repr) + {q}
    {
      q := new BqQueue(name);
      bufferQueues := bufferQueues[name := q];
      repr := repr + {q};
    }

    lemma NameKnown(name: string)
      requires Valid()
      ensures WellFormed() && this in repr && (name in bufferQueues <==> name in Abs().queues)
      ensures name in bufferQueues ==> bufferQueues[name].name == name && bufferQueues[name] in repr
    {
    }

    lemma EndpointsShown(q: BqQueue)
      ensures q.consumer != null <==> q.Abs().consumer.Some?
      ensures q.provider != null <==> q.Abs().provider.Some?
    {
    }

    /** bq_mgr_buffer_queue_new. */
    method QueueNew(name: string) returns (q: BqQueue)
      requires Valid()
      modifies repr
      ensures q.name == name && bufferQueues == old(bufferQueues)[name := q]
      ensures q.Sound() && this !in q.Parts() && q.Abs() == BrokerModel.QueueNew(old(Abs()), name)
      ensures q.consumer != null <==> q.Abs().consumer.Some?
      ensures q.provider != null <==> q.Abs().provider.Some?
      ensures repr == old(repr) + {q} && q.Parts() <= repr && (q.consumer != null || q.provider != null ==> q.ref > 1)
      ensures if name in old(bufferQueues) then q == old(bufferQueues[name]) && q.Kept() && q.Parts() == old(q.Parts())
              else fresh(q) && q.Parts() == {q} && q.consumer == null && q.provider == null && q.buffers == []
      ensures forall o: object | o in old(repr) && o !in old(Scope(name)) :: unchanged(o)
      ensures this in old(repr) && forall o | o in q.Parts() :: o in old(repr) || fresh(o)
      ensures handles == old(handles) && fds == old(fds) && closed == old(closed)
      ensures endedConsumers == old(endedConsumers) && endedProviders == old(endedProviders)
    {
      hide BqQueue.Sound, Valid, BqQueue.Owns, BqQueue.Abs;
      NameKnown(name);
      if name in bufferQueues {
        q := bufferQueues[name];
        QueueFacts(q);
        QueueReady(q);
        QueueRef(q);
      } else {
        q := QueueAdd(name);
      }
      EndpointsShown(q);
    }

    lemma RefPositive(name: string)
      requires Valid() && name in bufferQueues
      ensures name in Abs().queues && Abs().queues[name].ref > 0
    {
      assert Abs().queues[name] == bufferQueues[name].Abs();
    }

    /** A new endpoint joins the objects of the manager. */
    ghost method Record(q: BqQueue, o: object)
      requires this !in q.Parts() && q.Owns()
      modifies `repr
      ensures repr == old(repr) + {o}
      ensures q.Owns() && q.Abs() == old(q.Abs()) && q.Parts() == old(q.Parts())
    {
      repr := repr + {o};
      Untouched(q);
    }

    /** create_consumer on its queue, with the closed fds counted. */
    method CountAndAttachConsumer(q: BqQueue, queueSize: int, width: int, height: int) returns (c: BqConsumer)
      requires this !in q.Parts() && q.Sound() && q.consumer == null
      modifies `closed, `repr, q.Parts()
      ensures q.Owns() && fresh(c) && q.Parts() == old(q.Parts()) + {c} && q.consumer == c && c.bufferQueue == q
      ensures q.Abs() == AddConsumer(old(q.Abs()), queueSize, width, height)
      ensures closed == old(closed) + CatchUpCloses(old(q.Abs()).buffers) && repr == old(repr) + {c}
      ensures q.provider == old(q.provider) && q.buffers == old(q.buffers)
    {
      hide AddConsumer, CatchUpCloses;
      ghost var closes;
      c, closes := q.AttachConsumer(queueSize, width, height);
      Close(q, closes);
      Record(q, c);
    }

    /** create_provider on its queue. */
    method CountAndAttachProvider(q: BqQueue) returns (p: BqProvider)
      requires this !in q.Parts() && q.Sound() && q.provider == null
      modifies `repr, q.Parts()
      ensures q.Owns() && fresh(p) && q.Parts() == old(q.Parts()) + {p} && q.provider == p && p.bufferQueue == q
      ensures q.Abs() == AddProvider(old(q.Abs())) && repr == old(repr) + {p}
      ensures q.consumer == old(q.consumer) && q.buffers == old(q.buffers)
    {
      hide AddProvider;
      p := q.AttachProvider();
      Record(q, p);
    }

    /** The queue already has such an endpoint: the reference just taken is released again. */
    method GiveBack(q: BqQueue)
      requires this !in q.Parts() && q.Owns() && q.name in bufferQueues && q.ref > 1
      modifies q`ref, q`freed, `bufferQueues
      ensures bufferQueues == old(bufferQueues) && q.Owns() && q.Abs() == old(q.Abs()).(ref := old(q.Abs()).ref - 1)
      ensures q.Kept() && q.Parts() == old(q.Parts())
    {
      QueueUnref(q);
    }

    /** create_consumer once it has its queue. */
    method TryAttachConsumer(q: BqQueue, queueSize: int, width: int, height: int) returns (c: BqConsumer?)
      requires this !in q.Parts() && q.Sound() && q.name in bufferQueues
      requires q.consumer != null ==> q.ref > 1
      modifies `closed, `repr, `bufferQueues, q.Parts()
      ensures bufferQueues == old(bufferQueues) && q.Owns() && this !in q.Parts()
      ensures old(repr) <= repr && q.Parts() <= repr + old(q.Parts()) && fresh(repr - old(repr))
      ensures old(q.Parts()) <= q.Parts() && repr - old(repr) <= q.Parts()
      ensures handles == old(handles) && fds == old(fds)
      ensures endedConsumers == old(endedConsumers) && endedProviders == old(endedProviders)
      ensures c == null <==> old(q.consumer) != null
      ensures c != null ==> fresh(c) && q.consumer == c && c.bufferQueue == q
      ensures q.provider == old(q.provider) && q.buffers == old(q.buffers) && (c == null ==> q.Kept())
      ensures q.Abs() == if c == null then old(q.Abs()).(ref := old(q.Abs()).ref - 1)
                         else AddConsumer(old(q.Abs()), queueSize, width, height)
      ensures closed == if c == null then old(closed) else old(closed) + CatchUpCloses(old(q.Abs()).buffers)
    {
      if q.consumer != null {
        GiveBack(q);
        return null;
      }
      c := CountAndAttachConsumer(q, queueSize, width, height);
    }

    method TryAttachProvider(q: BqQueue) returns (p: BqProvider?)
      requires this !in q.Parts() && q.Sound() && q.name in bufferQueues
      requires q.provider != null ==> q.ref > 1
      modifies `repr, `bufferQueues, q.Parts()
      ensures bufferQueues == old(bufferQueues) && q.Owns() && this !in q.Parts() && closed == old(closed)
      ensures old(repr) <= repr && q.Parts() <= repr + old(q.Parts()) && fresh(repr - old(repr))
      ensures old(q.Parts()) <= q.Parts() && repr - old(repr) <= q.Parts()
      ensures handles == old(handles) && fds == old(fds)
      ensures endedConsumers == old(endedConsumers) && endedProviders == old(endedProviders)
      ensures p == null <==> old(q.provider) != null
      ensures p != null ==> fresh(p) && q.provider == p && p.bufferQueue == q
      ensures q.consumer == old(q.consumer) && q.buffers == old(q.buffers) && (p == null ==> q.Kept())
      ensures q.Abs() == if p == null then old(q.Abs()).(ref := old(q.Abs()).ref - 1) else AddProvider(old(q.Abs()))
    {
      if q.provider != null {
        GiveBack(q);
        return null;
      }
      p := CountAndAttachProvider(q);
    }

    /** Of the objects known before, only the queue under name and the manager have changed. */
    twostate predicate WithinScope(new name: string)
      requires old(WellFormed()) && old(repr) <= repr
      reads this, repr
    {
      forall o: object | o in old(repr) && o !in old(Scope(name)) :: unchanged(o)
    }

    /** The statements of create_consumer. */
    method DoCreateConsumer(name: string, queueSize: int, width: int, height: int) returns (c: BqConsumer?, q: BqQueue)
      requires Valid()
      modifies repr
      ensures q.name == name && bufferQueues == old(bufferQueues)[name := q]
      ensures q.Owns() && this !in q.Parts() && old(repr) <= repr && q in repr && q.Parts() <= repr && WithinScope(name)
      ensures old(Scope(name)) - {this} <= q.Parts() && repr - old(repr) <= q.Parts() && fresh(repr - old(repr))
      ensures if name in old(bufferQueues)
              then q == old(bufferQueues[name]) && q.provider == old(q.provider) && q.buffers == old(q.buffers)
                   && (c == null ==> q.Kept())
              else fresh(q) && q.provider == null && q.buffers == [] && c != null
      ensures var before := BrokerModel.QueueNew(old(Abs()), name);
        && (c == null <==> before.consumer.Some?)
        && q.Abs() == (if c == null then before.(ref := before.ref - 1)
                       else AddConsumer(before, queueSize, width, height))
        && closed == (if c == null then old(closed) else old(closed) + CatchUpCloses(before.buffers))
      ensures c != null ==> fresh(c) && q.consumer == c && c.bufferQueue == q
      ensures handles == old(handles) && fds == old(fds)
      ensures endedConsumers == old(endedConsumers) && endedProviders == old(endedProviders)
    {
      hide Valid, BqQueue.Sound, BqQueue.Owns, BqQueue.Parts, BqQueue.Abs, BrokerModel.QueueNew, AddConsumer,
           CatchUpCloses;
      q := QueueNew(name);
      c := TryAttachConsumer(q, queueSize, width, height);
    }

    /** The statements of create_provider. */
    method DoCreateProvider(name: string) returns (p: BqProvider?, q: BqQueue)
      requires Valid()
      modifies repr
      ensures q.name == name && bufferQueues == old(bufferQueues)[name := q]
      ensures q.Owns() && this !in q.Parts() && old(repr) <= repr && q in repr && q.Parts() <= repr && WithinScope(name)
      ensures old(Scope(name)) - {this} <= q.Parts() && repr - old(repr) <= q.Parts() && fresh(repr - old(repr))
      ensures if name in old(bufferQueues)
              then q == old(bufferQueues[name]) && q.consumer == old(q.consumer) && q.buffers == old(q.buffers)
                   && (p == null ==> q.Kept())
              else fresh(q) && q.consumer == null && q.buffers == [] && p != null
      ensures var before := BrokerModel.QueueNew(old(Abs()), name);
        && (p == null <==> before.provider.Some?)
        && q.Abs() == (if p == null then before.(ref := before.ref - 1) else AddProvider(before))
      ensures p != null ==> fresh(p) && q.provider == p && p.bufferQueue == q
      ensures unchanged(`handles) && unchanged(`fds) && unchanged(`endedConsumers) && unchanged(`endedProviders)
      ensures closed == old(closed)
    {
      hide Valid, BqQueue.Sound, BqQueue.Owns, BqQueue.Parts, BqQueue.Abs, BrokerModel.QueueNew, AddProvider;
      q := QueueNew(name);
      p := TryAttachProvider(q);
    }

    /** bq_mgr_buffer_queue_create_consumer: null when the queue already has a consumer. */
    method CreateConsumer(name: string, queueSize: int, width: int, height: int) returns (c: BqConsumer?)
      requires Valid()
      modifies repr
      ensures Did(Request.CreateConsumer(name, queueSize, width, height))
      ensures Valid() && fresh(repr - old(repr))
      ensures c == null <==> old(HasConsumer(Abs(), name))
      ensures c != null ==> fresh(c) && Feeds(c) && c.bufferQueue.name == name
      ensures name in bufferQueues && bufferQueues == old(bufferQueues)[name := bufferQueues[name]]
      ensures var q := bufferQueues[name];
        if name in old(bufferQueues)
        then q == old(bufferQueues[name]) && q.provider == old(q.provider) && q.buffers == old(q.buffers)
             && (c == null ==> q.Kept())
        else fresh(q) && q.provider == null && q.buffers == []
    {
      ghost var st, r := Abs(), Request.CreateConsumer(name, queueSize, width, height);
      if name in bufferQueues { RefPositive(name); }
      ghost var st' := CreateConsumerSteps(st, r);
      hide Valid, BqQueue.Owns, BqQueue.Abs, Step, Enabled, AddConsumer, CatchUpCloses;
      var bq;
      c, bq := DoCreateConsumer(name, queueSize, width, height);
      CommitQueue(r, bq, st');
    }

    /** bq_mgr_buffer_queue_create_provider: null when the queue already has a provider. */
    method CreateProvider(name: string) returns (p: BqProvider?)
      requires Valid()
      modifies repr
      ensures Did(Request.CreateProvider(name))
      ensures Valid() && fresh(repr - old(repr))
      ensures p == null <==> old(HasProvider(Abs(), name))
      ensures p != null ==> fresh(p) && Serves(p) && p.bufferQueue.name == name
      ensures name in bufferQueues && bufferQueues == old(bufferQueues)[name := bufferQueues[name]]
      ensures var q := bufferQueues[name];
        if name in old(bufferQueues)
        then q == old(bufferQueues[name]) && q.consumer == old(q.consumer) && q.buffers == old(q.buffers)
             && (p == null ==> q.Kept())
        else fresh(q) && q.consumer == null && q.buffers == []
    {
      ghost var st, r := Abs(), Request.CreateProvider(name);
      if name in bufferQueues { RefPositive(name); }
      ghost var st' := CreateProviderSteps(st, r);
      hide Valid, BqQueue.Owns, BqQueue.Abs, Step, Enabled, AddProvider;
      var bq;
      p, bq := DoCreateProvider(name);
      CommitQueue(r, bq, st');
    }

    /** The log of an endpoint that goes is kept. */
    ghost method KeepLogs(q: BqQueue, cs: seq<seq<ConsumerEvent>>, ps: seq<seq<ProviderEvent>>)
      requires this !in q.Parts() && q.Sound()
      modifies `endedConsumers, `endedProviders
      ensures endedConsumers == old(endedConsumers) + cs && endedProviders == old(endedProviders) + ps
      ensures q.Sound() && q.Abs() == old(q.Abs()) && q.Parts() == old(q.Parts())
    {
      endedConsumers := endedConsumers + cs;
      endedProviders := endedProviders + ps;
      Untouched(q);
    }

    /** The statements of bq_mgr_buffer_consumer_destroy. */
    method DoDestroyConsumer(q: BqQueue)
      requires this !in q.Parts() && q.Sound() && q.consumer != null && q.name in bufferQueues
      requires q.ref == One(q.consumer != null) + One(q.provider != null)
      modifies `endedConsumers, `endedProviders, `bufferQueues, q.Parts()
      ensures endedConsumers == old(endedConsumers) + [old(q.consumer.log)] && endedProviders == old(endedProviders)
      ensures if old(q.ref) - 1 <= 0 then bufferQueues == old(bufferQueues) - {q.name}
              else bufferQueues == old(bufferQueues) && q.Owns() && q.Parts() <= old(q.Parts())
                   && q.Abs() == DropConsumer(old(q.Abs())).(ref := old(q.ref) - 1)
                   && q.consumer == null && q.provider == old(q.provider) && q.buffers == []
      ensures old(q.consumer).freed
      ensures forall i | 0 <= i < |old(q.buffers)| :: old(q.buffers)[i].ref == 0 && old(q.buffers)[i].freed
      ensures forall o | o in old(q.Parts()) :: Freed(o) || (old(q.ref) - 1 > 0 && o in q.Parts())
    {
      hide BqQueue.Sound, BqQueue.Owns, DropConsumer;
      KeepLogs(q, [q.consumer.log], []);
      assert endedProviders == old(endedProviders);
      q.ConsumerDestroyed();
      QueueUnref(q);
    }

    /** The statements of bq_mgr_buffer_provider_destroy. */
    method DoDestroyProvider(q: BqQueue)
      requires this !in q.Parts() && q.Sound() && q.provider != null && q.name in bufferQueues
      requires q.ref == One(q.consumer != null) + One(q.provider != null)
      modifies `endedConsumers, `endedProviders, `bufferQueues, q.Parts()
      ensures endedConsumers == old(endedConsumers) && endedProviders == old(endedProviders) + [old(q.provider.log)]
      ensures if old(q.ref) - 1 <= 0 then bufferQueues == old(bufferQueues) - {q.name}
              else bufferQueues == old(bufferQueues) && q.Owns() && q.Parts() <= old(q.Parts())
                   && q.Abs() == DropProvider(old(q.Abs())).(ref := old(q.ref) - 1)
                   && q.provider == null && q.consumer == old(q.consumer) && q.buffers == []
      ensures old(q.provider).freed
      ensures forall i | 0 <= i < |old(q.buffers)| :: old(q.buffers)[i].ref == 0 && old(q.buffers)[i].freed
      ensures forall o | o in old(q.Parts()) :: Freed(o) || (old(q.ref) - 1 > 0 && o in q.Parts())
    {
      hide BqQueue.Sound, BqQueue.Owns, DropProvider;
      KeepLogs(q, [], [q.provider.log]);
      assert endedConsumers == old(endedConsumers);
      q.ProviderDestroyed();
      QueueUnref(q);
    }

    /** bq_mgr_buffer_consumer_destroy: the consumer and every buffer of its queue are freed. */
    method ConsumerDestroy(c: BqConsumer)
      requires Valid() && Feeds(c)
      modifies repr
      ensures Did(DestroyConsumer(c.bufferQueue.name)) && repr == old(repr)
      ensures Valid() && fresh(repr - old(repr))
      ensures var q := c.bufferQueue;
        if old(q.provider) == null then bufferQueues == old(bufferQueues) - {q.name}
        else bufferQueues == old(bufferQueues) && q.consumer == null && q.provider == old(q.provider) && q.buffers == []
      ensures c.freed && forall b | b in old(c.bufferQueue.buffers) :: b.ref == 0 && b.freed
    {
      hide Valid, BqQueue.Sound, BqQueue.Abs, Enabled, HasProvider, HasConsumer, Step, DropConsumer;
      var bq := c.bufferQueue;
      QueueReady(bq);
      ghost var st, r := Abs(), DestroyConsumer(bq.name);
      QueueFacts(bq);
      ConsumerCan(c);
      ghost var st' := DestroyConsumerSteps(st, bq.name);
      DoDestroyConsumer(bq);
      if old(bq.ref) - 1 <= 0 { CommitFreed(r, st'); } else { CommitQueue(r, bq, st'); }
    }

    /** bq_mgr_buffer_provider_destroy: the provider and every buffer of its queue are freed. */
    method ProviderDestroy(p: BqProvider)
      requires Valid() && Serves(p)
      modifies repr
      ensures Did(DestroyProvider(p.bufferQueue.name)) && repr == old(repr)
      ensures Valid() && fresh(repr - old(repr))
      ensures var q := p.bufferQueue;
        if old(q.consumer) == null then bufferQueues == old(bufferQueues) - {q.name}
        else bufferQueues == old(bufferQueues) && q.provider == null && q.consumer == old(q.consumer) && q.buffers == []
      ensures p.freed && forall b | b in old(p.bufferQueue.buffers) :: b.ref == 0 && b.freed
    {
      hide Valid, BqQueue.Sound, BqQueue.Abs, Enabled, HasProvider, HasConsumer, Step, DropProvider;
      var bq := p.bufferQueue;
      QueueReady(bq);
      ghost var st, r := Abs(), DestroyProvider(bq.name);
      QueueFacts(bq);
      ProviderCan(p);
      ghost var st' := DestroyProviderSteps(st, bq.name);
      DoDestroyProvider(bq);
      if old(bq.ref) - 1 <= 0 { CommitFreed(r, st'); } else { CommitQueue(r, bq, st'); }
    }

    // ---------- whole runs ----------

    /** The objects that the transport finds for a request. */
    lemma EndpointsFound(name: string)
      requires Valid() && name in Abs().queues
      ensures name in bufferQueues && Abs().queues[name].buffers == bufferQueues[name].AbsBuffers()
      ensures HasProvider(Abs(), name) ==>
                var p := bufferQueues[name].provider; p != null && p.bufferQueue == bufferQueues[name] && Serves(p)
      ensures HasConsumer(Abs(), name) ==>
                var c := bufferQueues[name].consumer; c != null && c.bufferQueue == bufferQueues[name] && Feeds(c)
      ensures bufferQueues[name].name == name
    {
      assert Registered(name, bufferQueues[name]) && Abs().queues[name] == bufferQueues[name].Abs();
    }

    function FindBuffer(bs: seq<BqBuffer>, h: nat): (buffer: BqBuffer)
      requires exists i :: 0 <= i < |bs| && bs[i].handle == h
      ensures buffer in bs && buffer.handle == h
    {
      if bs[0].handle == h then bs[0] else FindBuffer(bs[1..], h)
    }

    lemma BufferFound(q: BqQueue, h: nat)
      requires HasHandle(q.AbsBuffers(), h)
      ensures exists i :: 0 <= i < |q.buffers| && q.buffers[i].handle == h
    {
      var i :| 0 <= i < |q.AbsBuffers()| && q.AbsBuffers()[i].handle == h;
      assert q.buffers[i].handle == h;
    }

    /** Any request that the model admits reaches its handler. */
    method Dispatch(r: Request)
      requires Valid() && Enabled(Abs(), r)
      modifies repr
      ensures Did(r)
      ensures Valid() && fresh(repr - old(repr))
    {
      NameKnown(r.name);
      if !r.CreateConsumer? && !r.CreateProvider? { EndpointsFound(r.name); }
      hide Valid, Did, Serves, Feeds, HasHandle, BqQueue.Abs, BqQueue.AbsBuffers;
      match r {
        case CreateConsumer(name, queueSize, width, height) =>
          var c := CreateConsumer(name, queueSize, width, height);
        case CreateProvider(name) =>
          var p := CreateProvider(name);
        case Attach(name, attrs) =>
          var buffer := ProviderAttachBuffer(bufferQueues[name].provider, attrs);
        case SetId(name, h, id, layout) =>
          BufferFound(bufferQueues[name], h);
          var q := bufferQueues[name];
          ProviderSetBufferId(q.provider, FindBuffer(q.buffers, h), id, layout);
        case SetFd(name, h, fd, layout) =>
          BufferFound(bufferQueues[name], h);
          var q := bufferQueues[name];
          ProviderSetBufferFd(q.provider, FindBuffer(q.buffers, h), fd, layout);
        case Detach(name, h) =>
          BufferFound(bufferQueues[name], h);
          var q := bufferQueues[name];
          ProviderDetachBuffer(q.provider, FindBuffer(q.buffers, h));
        case Enqueue(name, h, serial) =>
          BufferFound(bufferQueues[name], h);
          var q := bufferQueues[name];
          ProviderEnqueueBuffer(q.provider, FindBuffer(q.buffers, h), serial);
        case Release(name, h) =>
          BufferFound(bufferQueues[name], h);
          var q := bufferQueues[name];
          ConsumerReleaseBuffer(q.consumer, FindBuffer(q.buffers, h));
        case DestroyConsumer(name) =>
          ConsumerDestroy(bufferQueues[name].consumer);
        case DestroyProvider(name) =>
          ProviderDestroy(bufferQueues[name].provider);
      }
    }

    twostate lemma Progress(new r: Request)
      requires Did(r)
      ensures Valid() && WellFormed() && old(WellFormed()) && Enabled(old(Abs()), r) && Abs() == Step(old(Abs()), r)
      ensures old(repr) <= repr && fresh(repr - old(repr))
    {
    }

    lemma Formed()
      requires Valid()
      ensures WellFormed()
    {
    }

    /** Every run of the model is a run of the handlers on objects: starting anywhere, they reach the state that
        the model reaches, so all that holds of the model's runs holds of the objects. */
    method Serve(rs: seq<Request>)
      requires Valid() && IsRun(Abs(), rs)
      modifies repr
      ensures Valid() && old(repr) <= repr && fresh(repr - old(repr)) && Abs() == Run(old(Abs()), rs)
    {
      hide Valid, WellFormed, Step, Enabled, Did, Abs;
      Formed();
      ghost var was := Abs();
      assert rs[0..] == rs;
      for i := 0 to |rs|
        invariant Valid() && WellFormed() && old(repr) <= repr && fresh(repr - old(repr))
        invariant IsRun(Abs(), rs[i..]) && Run(Abs(), rs[i..]) == Run(was, rs)
      {
        assert rs[i..][0] == rs[i] && rs[i..][1..] == rs[i + 1..];
        label before:
        Dispatch(rs[i]);
        Progress@before(rs[i]);
      }
      assert rs[|rs|..] == [];
    }
  }
}
