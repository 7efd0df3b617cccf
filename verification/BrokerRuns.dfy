/** What every run of the buffer-queue broker keeps.

    A client is modelled by replaying its event log.  Replay is strict: it fails on the first
    event that breaks the protocol (connected twice, anything about a buffer outside a
    connection, a second attach of a buffer, a set, add or detach of a buffer that is not
    attached, disconnected with buffers still attached). */
module BrokerRuns {
  import opened Basics
  import opened BrokerModel

  // ---------- what a client knows from its log ----------

  /** A buffer as the consumer sees it. */
  datatype Seen = Seen(handle: nat, attrs: Attrs, isFd: bool, id: int, layout: Layout)

  /** seen: the buffers attached now, in order.  used: every buffer ever attached. */
  datatype View = View(connected: bool, seen: seq<Seen>, used: set<nat>)

  ghost predicate SeesHandle(seen: seq<Seen>, h: nat) {
    exists i | 0 <= i < |seen| :: seen[i].handle == h
  }

  ghost function SetSeen(seen: seq<Seen>, h: nat, isFd: bool, id: int, layout: Layout): (r: seq<Seen>)
    ensures |r| == |seen|
  {
    seq(|seen|, i requires 0 <= i < |seen| =>
      if seen[i].handle == h then seen[i].(isFd := isFd, id := id, layout := layout) else seen[i])
  }

  ghost function DropSeen(seen: seq<Seen>, h: nat): seq<Seen> {
    if seen == [] then []
    else if seen[0].handle == h then DropSeen(seen[1..], h)
    else [seen[0]] + DropSeen(seen[1..], h)
  }

  ghost function ReplayStep(v: Option<View>, e: ConsumerEvent): Option<View> {
    if v.None? then None
    else
      var View(connected, seen, used) := v.value;
      match e
      case Connected => if connected then None else Some(View(true, seen, used))
      case Disconnected => if connected && seen == [] then Some(View(false, seen, used)) else None
      case Attached(h, attrs) =>
        if connected && h !in used
        then Some(View(true, seen + [Seen(h, attrs, false, BLANK.id, BLANK.layout)], used + {h}))
        else None
      case SetBufferId(h, id, layout) =>
        if connected && SeesHandle(seen, h) then Some(View(true, SetSeen(seen, h, false, id, layout), used)) else None
      case SetBufferFd(h, fd, layout) =>
        if connected && SeesHandle(seen, h) then Some(View(true, SetSeen(seen, h, true, fd, layout), used)) else None
      case Detached(h) =>
        if connected && SeesHandle(seen, h) then Some(View(true, DropSeen(seen, h), used)) else None
      case AddBuffer(h, _) =>
        if connected && SeesHandle(seen, h) then v else None
  }

  ghost function ReplayFrom(v: Option<View>, es: seq<ConsumerEvent>): Option<View> {
    if es == [] then v else ReplayStep(ReplayFrom(v, es[..|es| - 1]), es[|es| - 1])
  }

  ghost function Replay(log: seq<ConsumerEvent>): Option<View> {
    ReplayFrom(Some(View(false, [], {})), log)
  }

  ghost function ReplayProviderStep(connected: Option<bool>, e: ProviderEvent): Option<bool> {
    if connected.None? then None
    else
      match e
      case ProviderConnected(_, _, _) => if connected.value then None else Some(true)
      case ProviderDisconnected => if connected.value then Some(false) else None
      case ProviderAddBuffer(_, _) => if connected.value then connected else None
  }

  /** Whether the provider's log leaves it connected; None if the log breaks the protocol. */
  ghost function ReplayProvider(log: seq<ProviderEvent>): Option<bool> {
    if log == [] then Some(false)
    else ReplayProviderStep(ReplayProvider(log[..|log| - 1]), log[|log| - 1])
  }

  // ---------- the invariant ----------

  ghost function SeenOf(b: Buffer): Seen {
    match b.content
    case IdContent(id, layout) => Seen(b.handle, b.attrs, false, id, layout)
    case FdContent(fd, layout, _) => Seen(b.handle, b.attrs, true, fd, layout)
  }

  /** The buffer set of a queue as a consumer should see it. */
  ghost function Visible(bs: seq<Buffer>): (r: seq<Seen>)
    ensures |r| == |bs| && forall i | 0 <= i < |bs| :: r[i] == SeenOf(bs[i])
  {
    seq(|bs|, i requires 0 <= i < |bs| => SeenOf(bs[i]))
  }

  ghost predicate DistinctHandles(bs: seq<Buffer>) {
    forall i, j | 0 <= i < j < |bs| :: bs[i].handle != bs[j].handle
  }

  /** The consumer's log is legal and rebuilds the queue. */
  ghost predicate ConsumerInSync(q: Queue, handles: nat)
    requires q.consumer.Some?
  {
    var v := Replay(q.consumer.value.log);
    && v.Some?
    && v.value.connected == q.provider.Some?
    && v.value.seen == Visible(q.buffers)
    && (forall h | h in v.value.used :: h < handles)
  }

  /** The provider's log is legal and says whether a consumer is there. */
  ghost predicate ProviderInSync(q: Queue)
    requires q.provider.Some?
  {
    ReplayProvider(q.provider.value.log) == Some(q.consumer.Some?)
  }

  ghost function One(b: bool): int { if b then 1 else 0 }

  ghost predicate BufferInv(b: Buffer, q: Queue, handles: nat) {
    && b.providerSide && b.consumerSide == q.consumer.Some?
    && b.ref == One(b.providerSide) + One(b.consumerSide)
    && b.handle < handles
  }

  ghost predicate QueueInv(q: Queue, handles: nat) {
    && q.ref == One(q.consumer.Some?) + One(q.provider.Some?) && q.ref > 0
    && (q.provider.None? ==> q.buffers == [])
    && DistinctHandles(q.buffers)
    && (forall i | 0 <= i < |q.buffers| :: BufferInv(q.buffers[i], q, handles))
    && (q.consumer.Some? ==> ConsumerInSync(q, handles))
    && (q.provider.Some? ==> ProviderInSync(q))
  }

  /** Buffer i of queue name holds an fd. */
  ghost predicate HoldsFd(st: State, name: string, i: int) {
    name in st.queues && 0 <= i < |st.queues[name].buffers| && st.queues[name].buffers[i].content.FdContent?
  }

  ghost function TagAt(st: State, name: string, i: int): nat
    requires HoldsFd(st, name, i)
  {
    st.queues[name].buffers[i].content.tag
  }

  /** No fd is closed twice: the closed tags are distinct, fds of different buffers have different
      tags, and an fd still waiting for a consumer has not been closed. */
  ghost predicate FdInv(st: State) {
    && NoDup(st.closed) && (forall t | t in st.closed :: t < st.fds)
    && (forall n, i | HoldsFd(st, n, i) :: TagAt(st, n, i) < st.fds)
    && (forall n, i, m, j | HoldsFd(st, n, i) && HoldsFd(st, m, j) && (n != m || i != j) ::
          TagAt(st, n, i) != TagAt(st, m, j))
    && (forall n, i | HoldsFd(st, n, i) && st.queues[n].consumer.None? :: TagAt(st, n, i) !in st.closed)
  }

  ghost predicate LogsLegal(st: State) {
    && (forall i | 0 <= i < |st.endedConsumers| :: Replay(st.endedConsumers[i]).Some?)
    && (forall i | 0 <= i < |st.endedProviders| :: ReplayProvider(st.endedProviders[i]).Some?)
  }

  ghost predicate Inv(st: State) {
    && (forall n | n in st.queues :: QueueInv(st.queues[n], st.handles))
    && FdInv(st)
    && LogsLegal(st)
  }

  // ---------- replay lemmas ----------

  lemma {:induction false} ReplayAppend(v: Option<View>, a: seq<ConsumerEvent>, b: seq<ConsumerEvent>)
    ensures ReplayFrom(v, a + b) == ReplayFrom(ReplayFrom(v, a), b)
    decreases |b|
  {
    if b == [] {
      assert a + b == a;
    } else {
      var n := |b| - 1;
      assert (a + b)[..|a + b| - 1] == a + b[..n];
      ReplayAppend(v, a, b[..n]);
    }
  }

  lemma ReplayOne(v: Option<View>, e: ConsumerEvent)
    ensures ReplayFrom(v, [e]) == ReplayStep(v, e)
  {
    assert [e][..0] == [];
  }

  lemma ReplayTwo(v: Option<View>, d: ConsumerEvent, e: ConsumerEvent)
    ensures ReplayFrom(v, [d, e]) == ReplayStep(ReplayStep(v, d), e)
  {
    assert [d, e][..1] == [d];
    ReplayOne(v, d);
  }

  lemma ReplayProviderMore(log: seq<ProviderEvent>, e: ProviderEvent)
    ensures ReplayProvider(log + [e]) == ReplayProviderStep(ReplayProvider(log), e)
  {
    assert (log + [e])[..|log|] == log;
  }

  ghost function HandlesOf(bs: seq<Buffer>): set<nat> {
    set i | 0 <= i < |bs| :: bs[i].handle
  }

  lemma HandlesOfLast(bs: seq<Buffer>)
    requires bs != []
    ensures HandlesOf(bs) == HandlesOf(bs[..|bs| - 1]) + {bs[|bs| - 1].handle}
  {
    var n := |bs| - 1;
    var pre := bs[..n];
    assert forall i | 0 <= i < n :: pre[i] == bs[i];
    assert forall h | h in HandlesOf(pre) :: exists i | 0 <= i < |bs| :: bs[i].handle == h;
  }

  /** Attaching and setting one buffer, from a view that does not know it. */
  lemma CatchUpOne(v: View, b: Buffer)
    requires v.connected && b.handle !in v.used && !SeesHandle(v.seen, b.handle)
    ensures ReplayFrom(Some(v), [Attached(b.handle, b.attrs), SetEvent(b)])
         == Some(View(true, v.seen + [SeenOf(b)], v.used + {b.handle}))
  {
    var blank := Seen(b.handle, b.attrs, false, BLANK.id, BLANK.layout);
    var seen := v.seen + [blank];
    ReplayTwo(Some(v), Attached(b.handle, b.attrs), SetEvent(b));
    assert ReplayStep(Some(v), Attached(b.handle, b.attrs)) == Some(View(true, seen, v.used + {b.handle}));
    assert seen[|v.seen|].handle == b.handle;
    forall i | 0 <= i < |v.seen| ensures seen[i].handle != b.handle {
      assert seen[i] == v.seen[i];
    }
    match b.content {
      case IdContent(id, layout) => assert SetSeen(seen, b.handle, false, id, layout) == v.seen + [SeenOf(b)];
      case FdContent(fd, layout, _) => assert SetSeen(seen, b.handle, true, fd, layout) == v.seen + [SeenOf(b)];
    }
  }

  /** A consumer that joins late is told exactly the buffers already there. */
  lemma {:induction false} CatchUpRebuilds(bs: seq<Buffer>)
    requires DistinctHandles(bs)
    ensures ReplayFrom(Some(View(true, [], {})), CatchUp(bs)) == Some(View(true, Visible(bs), HandlesOf(bs)))
    decreases |bs|
  {
    var v := Some(View(true, [], {}));
    if bs == [] {
      assert Visible(bs) == [] && HandlesOf(bs) == {};
    } else {
      var n := |bs| - 1;
      var pre, b := bs[..n], bs[n];
      CatchUpRebuilds(pre);
      ReplayAppend(v, CatchUp(pre), [Attached(b.handle, b.attrs), SetEvent(b)]);
      CatchUpOne(View(true, Visible(pre), HandlesOf(pre)), b);
      assert Visible(bs) == Visible(pre) + [SeenOf(b)];
      HandlesOfLast(bs);
    }
  }

  lemma DropSeenAbsent(seen: seq<Seen>, h: nat)
    requires !SeesHandle(seen, h)
    ensures DropSeen(seen, h) == seen
  {
    if seen != [] {
      assert seen[0].handle != h;
      assert !SeesHandle(seen[1..], h) by {
        assert forall i | 0 <= i < |seen[1..]| :: seen[1..][i] == seen[i + 1];
      }
      DropSeenAbsent(seen[1..], h);
    }
  }

  lemma DropSeenAt(a: seq<Seen>, x: Seen, b: seq<Seen>)
    requires !SeesHandle(a, x.handle) && !SeesHandle(b, x.handle)
    ensures DropSeen(a + [x] + b, x.handle) == a + b
  {
    var s := a + [x] + b;
    if a == [] {
      assert s[1..] == b && s[0] == x;
      DropSeenAbsent(b, x.handle);
    } else {
      assert s[1..] == a[1..] + [x] + b && s[0] == a[0];
      assert !SeesHandle(a[1..], x.handle) by {
        assert forall i | 0 <= i < |a[1..]| :: a[1..][i] == a[i + 1];
      }
      DropSeenAt(a[1..], x, b);
    }
  }

  /** Draining the buffers of a destroyed provider detaches each of them. */
  lemma {:induction false} DetachAllEmpties(bs: seq<Buffer>, rest: seq<Buffer>, used: set<nat>)
    requires DistinctHandles(bs + rest) && forall i | 0 <= i < |bs| :: bs[i].consumerSide
    ensures ReplayFrom(Some(View(true, Visible(bs + rest), used)), DetachAll(bs))
            == Some(View(true, Visible(rest), used))
    decreases |bs|
  {
    if bs == [] {
      assert bs + rest == rest;
    } else {
      var n := |bs| - 1;
      var pre, b := bs[..n], bs[n];
      assert pre + ([b] + rest) == bs + rest;
      DetachAllEmpties(pre, [b] + rest, used);
      var v := Some(View(true, Visible([b] + rest), used));
      ReplayAppend(Some(View(true, Visible(bs + rest), used)), DetachAll(pre), [Detached(b.handle)]);
      ReplayOne(v, Detached(b.handle));
      assert Visible([b] + rest)[0].handle == b.handle;
      assert !SeesHandle(Visible(rest), b.handle) by {
        assert forall i | 0 <= i < |rest| :: (bs + rest)[|bs| + i] == rest[i];
        assert (bs + rest)[n] == b;
      }
      DropSeenAt([], SeenOf(b), Visible(rest));
      assert [] + [SeenOf(b)] + Visible(rest) == Visible([b] + rest);
      assert [] + Visible(rest) == Visible(rest);
    }
  }

  // ---------- every handler keeps its queue in order ----------

  lemma QueueInvMonotone(q: Queue, handles: nat, more: nat)
    requires QueueInv(q, handles) && handles <= more
    ensures QueueInv(q, more)
  {
  }

  /** A queue as bq_mgr_buffer_queue_new returns it: one reference too many for its endpoints. */
  ghost predicate Referenced(q: Queue, handles: nat) {
    QueueInv(q.(ref := q.ref - 1), handles) || q == Queue(1, None, None, [])
  }

  lemma ReplayTold(log: seq<ConsumerEvent>, e: ConsumerEvent)
    ensures Replay(log + [e]) == ReplayStep(Replay(log), e)
  {
    var v := Some(View(false, [], {}));
    ReplayAppend(v, log, [e]);
    ReplayOne(ReplayFrom(v, log), e);
  }

  lemma ReplayHello(bs: seq<Buffer>)
    requires DistinctHandles(bs)
    ensures Replay([Connected] + CatchUp(bs)) == Some(View(true, Visible(bs), HandlesOf(bs)))
  {
    var v := Some(View(false, [], {}));
    ReplayAppend(v, [Connected], CatchUp(bs));
    ReplayOne(v, Connected);
    CatchUpRebuilds(bs);
  }

  lemma AddConsumerKeepsQueue(q: Queue, handles: nat, q': Queue, queueSize: int, width: int, height: int)
    requires Referenced(q, handles) && q.consumer.None?
    requires q' == AddConsumer(q, queueSize, width, height)
    ensures QueueInv(q', handles)
  {
    assert Visible(q'.buffers) == Visible(q.buffers);
    if q.provider.Some? {
      ReplayHello(q.buffers);
      ReplayProviderMore(q.provider.value.log, ProviderConnected(queueSize, width, height));
    } else {
      assert CatchUp(q.buffers) == [] && [] + CatchUp(q.buffers) == [];
      assert Visible([]) == [];
    }
  }

  lemma AddProviderKeepsQueue(q: Queue, handles: nat, q': Queue)
    requires Referenced(q, handles) && q.provider.None?
    requires q' == AddProvider(q)
    ensures QueueInv(q', handles)
  {
    if q.consumer.Some? {
      ReplayTold(q.consumer.value.log, Connected);
      var c := q.consumer.value;
      ReplayProviderMore([], ProviderConnected(c.queueSize, c.width, c.height));
      assert [] + q'.provider.value.log == q'.provider.value.log;
    }
  }

  lemma AttachKeepsQueue(q: Queue, handles: nat, attrs: Attrs, q': Queue)
    requires QueueInv(q, handles) && q.provider.Some?
    requires q' == AttachBuffer(q, handles, attrs)
    ensures QueueInv(q', handles + 1)
  {
    var b := q'.buffers[|q.buffers|];
    if q.consumer.Some? {
      ReplayTold(q.consumer.value.log, Attached(handles, b.attrs));
      assert Visible(q'.buffers) == Visible(q.buffers) + [SeenOf(b)];
    }
  }

  lemma SetKeepsQueue(q: Queue, handles: nat, h: nat, content: Content, q': Queue)
    requires QueueInv(q, handles) && q.provider.Some? && HasHandle(q.buffers, h)
    requires q' == SetBuffer(q, h, content)
    ensures QueueInv(q', handles)
  {
    var i := IndexOf(q.buffers, h);
    var b := q'.buffers[i];
    if q.consumer.Some? {
      ReplayTold(q.consumer.value.log, SetEvent(b));
      var seen := Visible(q.buffers);
      assert seen[i].handle == b.handle;
      assert forall j | 0 <= j < |seen| && j != i :: seen[j].handle != b.handle;
      match b.content {
        case IdContent(id, layout) => assert SetSeen(seen, b.handle, false, id, layout) == Visible(q'.buffers);
        case FdContent(fd, layout, _) => assert SetSeen(seen, b.handle, true, fd, layout) == Visible(q'.buffers);
      }
    }
  }

  lemma RemoveAtIndex<T>(s: seq<T>, i: nat, j: nat)
    requires i < |s| && j < |s| - 1
    ensures RemoveAt(s, i)[j] == s[if j < i then j else j + 1]
  {
  }

  lemma DetachUpdatesView(bs: seq<Buffer>, i: nat, used: set<nat>)
    requires DistinctHandles(bs) && i < |bs|
    ensures ReplayStep(Some(View(true, Visible(bs), used)), Detached(bs[i].handle))
         == Some(View(true, Visible(RemoveAt(bs, i)), used))
  {
    var h, seen := bs[i].handle, Visible(bs);
    assert seen[i].handle == h;
    var a, z := seen[..i], seen[i + 1..];
    assert seen == a + [seen[i]] + z;
    assert !SeesHandle(a, h) && !SeesHandle(z, h) by {
      assert forall j | 0 <= j < |a| :: a[j] == SeenOf(bs[j]);
      assert forall j | 0 <= j < |z| :: z[j] == SeenOf(bs[i + 1 + j]);
    }
    DropSeenAt(a, seen[i], z);
    assert a + z == Visible(RemoveAt(bs, i));
  }

  lemma DetachKeepsQueue(q: Queue, handles: nat, h: nat, q': Queue)
    requires QueueInv(q, handles) && q.provider.Some? && HasHandle(q.buffers, h)
    requires q' == DetachBuffer(q, h)
    ensures QueueInv(q', handles)
  {
    var i := IndexOf(q.buffers, h);
    hide RemoveAt, Visible, DropSeen, SetSeen;
    forall j | 0 <= j < |q'.buffers| ensures q'.buffers[j] == q.buffers[if j < i then j else j + 1] {
      RemoveAtIndex(q.buffers, i, j);
    }
    if q.consumer.Some? {
      var log := q.consumer.value.log;
      ReplayTold(log, Detached(q.buffers[i].handle));
      DetachUpdatesView(q.buffers, i, Replay(log).value.used);
    }
  }

  lemma EnqueueKeepsQueue(q: Queue, handles: nat, h: nat, serial: int, q': Queue)
    requires QueueInv(q, handles) && q.provider.Some? && q.consumer.Some? && HasHandle(q.buffers, h)
    requires q' == EnqueueBuffer(q, h, serial)
    ensures QueueInv(q', handles)
  {
    var i := IndexOf(q.buffers, h);
    ReplayTold(q.consumer.value.log, AddBuffer(q.buffers[i].handle, serial));
    assert Visible(q.buffers)[i].handle == q.buffers[i].handle;
    assert Visible(q'.buffers) == Visible(q.buffers);
  }

  lemma ReleaseKeepsQueue(q: Queue, handles: nat, h: nat, q': Queue)
    requires QueueInv(q, handles) && q.consumer.Some? && HasHandle(q.buffers, h)
    requires q' == ReleaseBuffer(q, h)
    ensures QueueInv(q', handles)
  {
    var b := q.buffers[IndexOf(q.buffers, h)];
    assert BufferInv(b, q, handles);
    if q.provider.Some? {
      ReplayProviderMore(q.provider.value.log, ProviderAddBuffer(h, b.serial));
    }
  }

  /** A queue losing an endpoint: in order unless that was its last one. */
  lemma DropConsumerKeepsQueue(q: Queue, handles: nat, q': Queue)
    requires QueueInv(q, handles) && q.consumer.Some?
    requires q' == DropConsumer(q).(ref := q.ref - 1)
    ensures q'.ref <= 0 <==> q.provider.None?
    ensures q'.ref > 0 ==> QueueInv(q', handles)
  {
    if q.provider.Some? {
      ReplayProviderMore(q.provider.value.log, ProviderDisconnected);
    }
  }

  lemma DropProviderKeepsQueue(q: Queue, handles: nat, q': Queue)
    requires QueueInv(q, handles) && q.provider.Some?
    requires q' == DropProvider(q).(ref := q.ref - 1)
    ensures q'.ref <= 0 <==> q.consumer.None?
    ensures q'.ref > 0 ==> QueueInv(q', handles)
  {
    if q.consumer.Some? {
      var log, bs := q.consumer.value.log, q.buffers;
      var v := Replay(log);
      ReplayAppend(Some(View(false, [], {})), log, DetachAll(bs));
      assert bs + [] == bs;
      DetachAllEmpties(bs, [], v.value.used);
      assert Visible([]) == [];
      ReplayTold(log + DetachAll(bs), Disconnected);
      assert log + (DetachAll(bs) + [Disconnected]) == log + DetachAll(bs) + [Disconnected];
    }
  }

  // ---------- no fd is closed twice ----------

  /** A step that closes and receives no fd, keeps or drops the fds held (from says where each one
      was), and takes no consumer away from a queue that still holds one. */
  lemma FdsMoved(st: State, st': State, from: (string, int) -> int)
    requires FdInv(st) && st'.closed == st.closed && st'.fds == st.fds
    requires forall n, i | HoldsFd(st', n, i) ::
               HoldsFd(st, n, from(n, i)) && TagAt(st, n, from(n, i)) == TagAt(st', n, i)
               && (st'.queues[n].consumer.None? ==> st.queues[n].consumer.None?)
    requires forall n, i, j | HoldsFd(st', n, i) && HoldsFd(st', n, j) && i != j :: from(n, i) != from(n, j)
    ensures FdInv(st')
  {
  }

  lemma {:induction false} CatchUpClosesTags(bs: seq<Buffer>, t: nat)
    requires t in CatchUpCloses(bs)
    ensures exists i | 0 <= i < |bs| :: bs[i].content.FdContent? && bs[i].content.tag == t
    decreases |bs|
  {
    var n := |bs| - 1;
    if t in SetCloses(bs[n]) {
      assert bs[n].content.FdContent? && bs[n].content.tag == t;
    } else {
      CatchUpClosesTags(bs[..n], t);
      var i :| 0 <= i < n && bs[..n][i].content.FdContent? && bs[..n][i].content.tag == t;
      assert bs[i].content.FdContent? && bs[i].content.tag == t;
    }
  }

  lemma {:induction false} CatchUpClosesOnce(bs: seq<Buffer>)
    requires forall i, j | 0 <= i < j < |bs| && bs[i].content.FdContent? && bs[j].content.FdContent? ::
               bs[i].content.tag != bs[j].content.tag
    ensures NoDup(CatchUpCloses(bs))
    decreases |bs|
  {
    if bs != [] {
      var n := |bs| - 1;
      CatchUpClosesOnce(bs[..n]);
      forall t | t in CatchUpCloses(bs[..n]) ensures t !in SetCloses(bs[n]) {
        CatchUpClosesTags(bs[..n], t);
      }
      NoDupConcat(CatchUpCloses(bs[..n]), SetCloses(bs[n]));
    }
  }

  lemma NoDupConcat<T>(a: seq<T>, b: seq<T>)
    requires NoDup(a) && NoDup(b) && forall x | x in b :: x !in a
    ensures NoDup(a + b)
  {
    var c := a + b;
    forall i, j | 0 <= i < j < |c| ensures c[i] != c[j] {
      if i < |a| <= j {
        assert c[i] == a[i] && c[j] == b[j - |a|];
        assert b[j - |a|] in b;
      } else if |a| <= i {
        assert c[i] == b[i - |a|] && c[j] == b[j - |a|];
      }
    }
  }

  lemma CreateConsumerKeepsFds(st: State, name: string, queueSize: int, width: int, height: int)
    requires FdInv(st) && !HasConsumer(st, name)
    ensures FdInv(StepCreateConsumer(st, name, queueSize, width, height))
  {
    var st' := StepCreateConsumer(st, name, queueSize, width, height);
    var bs := QueueNew(st, name).buffers;
    forall i, j | 0 <= i < j < |bs| && bs[i].content.FdContent? && bs[j].content.FdContent?
      ensures bs[i].content.tag != bs[j].content.tag
    {
      assert HoldsFd(st, name, i) && HoldsFd(st, name, j);
      assert TagAt(st, name, i) != TagAt(st, name, j);
    }
    CatchUpClosesOnce(bs);
    forall t | t in CatchUpCloses(bs) ensures t !in st.closed && t < st.fds {
      CatchUpClosesTags(bs, t);
      var i :| 0 <= i < |bs| && bs[i].content.FdContent? && bs[i].content.tag == t;
      assert HoldsFd(st, name, i) && TagAt(st, name, i) == t;
    }
    NoDupConcat(st.closed, CatchUpCloses(bs));
    forall n, i | HoldsFd(st', n, i) ensures HoldsFd(st, n, i) && TagAt(st, n, i) == TagAt(st', n, i) {
    }
    forall n, i | HoldsFd(st', n, i) && st'.queues[n].consumer.None? ensures TagAt(st', n, i) !in st'.closed {
      assert n != name;
      forall t | t in CatchUpCloses(bs) ensures t != TagAt(st', n, i) {
        CatchUpClosesTags(bs, t);
        var k :| 0 <= k < |bs| && bs[k].content.FdContent? && bs[k].content.tag == t;
        assert HoldsFd(st, name, k) && TagAt(st, name, k) == t;
      }
    }
  }

  lemma SetFdKeepsFds(st: State, name: string, h: nat, fd: int, layout: Layout)
    requires FdInv(st) && Enabled(st, SetFd(name, h, fd, layout))
    ensures FdInv(StepSetFd(st, name, h, fd, layout))
  {
    var st' := StepSetFd(st, name, h, fd, layout);
    var k := IndexOf(st.queues[name].buffers, h);
    NoDupConcat(st.closed, [st.fds]);
    forall n, i | HoldsFd(st', n, i)
      ensures if n == name && i == k then TagAt(st', n, i) == st.fds
              else HoldsFd(st, n, i) && TagAt(st', n, i) == TagAt(st, n, i)
    {
    }
  }

  // ---------- the invariant holds in every run ----------

  lemma RestKept(st: State, st': State, name: string)
    requires Inv(st) && st.handles <= st'.handles
    requires forall n | n != name :: n in st'.queues ==> n in st.queues && st'.queues[n] == st.queues[n]
    requires name in st'.queues ==> QueueInv(st'.queues[name], st'.handles)
    ensures forall n | n in st'.queues :: QueueInv(st'.queues[n], st'.handles)
  {
    forall n | n in st'.queues && n != name ensures QueueInv(st'.queues[n], st'.handles) {
      QueueInvMonotone(st.queues[n], st.handles, st'.handles);
    }
  }

  lemma CreateConsumerKeepsInv(st: State, name: string, queueSize: int, width: int, height: int)
    requires Inv(st)
    ensures Inv(StepCreateConsumer(st, name, queueSize, width, height))
  {
    var st' := StepCreateConsumer(st, name, queueSize, width, height);
    var q := QueueNew(st, name);
    if q.consumer.Some? {
      assert st' == st.(queues := st.queues[name := st.queues[name]]);
      assert st'.queues == st.queues;
    } else {
      assert name in st.queues ==> q.(ref := q.ref - 1) == st.queues[name];
      AddConsumerKeepsQueue(q, st.handles, st'.queues[name], queueSize, width, height);
      RestKept(st, st', name);
      CreateConsumerKeepsFds(st, name, queueSize, width, height);
    }
  }

  lemma CreateProviderKeepsInv(st: State, name: string)
    requires Inv(st)
    ensures Inv(StepCreateProvider(st, name))
  {
    var st' := StepCreateProvider(st, name);
    var q := QueueNew(st, name);
    if q.provider.Some? {
      assert st'.queues == st.queues;
    } else {
      assert name in st.queues ==> q.(ref := q.ref - 1) == st.queues[name];
      AddProviderKeepsQueue(q, st.handles, st'.queues[name]);
      RestKept(st, st', name);
      FdsMoved(st, st', (n, i) => i);
    }
  }

  lemma AttachKeepsInv(st: State, name: string, attrs: Attrs)
    requires Inv(st) && HasProvider(st, name)
    ensures Inv(StepAttach(st, name, attrs))
  {
    hide QueueInv;
    var st', q := StepAttach(st, name, attrs), st.queues[name];
    AttachKeepsQueue(q, st.handles, attrs, st'.queues[name]);
    RestKept(st, st', name);
    FdsMoved(st, st', (n, i) => i);
  }

  lemma SetIdKeepsInv(st: State, name: string, h: nat, id: int, layout: Layout)
    requires Inv(st) && Enabled(st, SetId(name, h, id, layout))
    ensures Inv(StepSetId(st, name, h, id, layout))
  {
    hide QueueInv;
    var st' := StepSetId(st, name, h, id, layout);
    SetKeepsQueue(st.queues[name], st.handles, h, IdContent(id, layout), st'.queues[name]);
    RestKept(st, st', name);
    FdsMoved(st, st', (n, i) => i);
  }

  lemma SetFdKeepsInv(st: State, name: string, h: nat, fd: int, layout: Layout)
    requires Inv(st) && Enabled(st, SetFd(name, h, fd, layout))
    ensures Inv(StepSetFd(st, name, h, fd, layout))
  {
    hide QueueInv;
    var st' := StepSetFd(st, name, h, fd, layout);
    SetKeepsQueue(st.queues[name], st.handles, h, FdContent(fd, layout, st.fds), st'.queues[name]);
    RestKept(st, st', name);
    SetFdKeepsFds(st, name, h, fd, layout);
  }

  lemma DetachKeepsInv(st: State, name: string, h: nat)
    requires Inv(st) && Enabled(st, Detach(name, h))
    ensures Inv(Step(st, Detach(name, h)))
  {
    hide QueueInv;
    var st', q := Step(st, Detach(name, h)), st.queues[name];
    var k := IndexOf(q.buffers, h);
    DetachKeepsQueue(q, st.handles, h, st'.queues[name]);
    RestKept(st, st', name);
    FdsMoved(st, st', (n, i) => if n == name && i >= k then i + 1 else i);
  }

  lemma EnqueueKeepsInv(st: State, name: string, h: nat, serial: int)
    requires Inv(st) && Enabled(st, Enqueue(name, h, serial))
    ensures Inv(Step(st, Enqueue(name, h, serial)))
  {
    hide QueueInv;
    var st' := Step(st, Enqueue(name, h, serial));
    EnqueueKeepsQueue(st.queues[name], st.handles, h, serial, st'.queues[name]);
    RestKept(st, st', name);
    FdsMoved(st, st', (n, i) => i);
  }

  lemma ReleaseKeepsInv(st: State, name: string, h: nat)
    requires Inv(st) && Enabled(st, Release(name, h))
    ensures Inv(Step(st, Release(name, h)))
  {
    hide QueueInv;
    var st' := Step(st, Release(name, h));
    ReleaseKeepsQueue(st.queues[name], st.handles, h, st'.queues[name]);
    RestKept(st, st', name);
    FdsMoved(st, st', (n, i) => i);
  }

  lemma DestroyConsumerKeepsInv(st: State, name: string)
    requires Inv(st) && HasConsumer(st, name)
    ensures Inv(StepDestroyConsumer(st, name))
  {
    var st', q := StepDestroyConsumer(st, name), st.queues[name];
    DropConsumerKeepsQueue(q, st.handles, DropConsumer(q).(ref := q.ref - 1));
    RestKept(st, st', name);
    FdsMoved(st, st', (n, i) => i);
  }

  lemma DestroyProviderKeepsInv(st: State, name: string)
    requires Inv(st) && HasProvider(st, name)
    ensures Inv(StepDestroyProvider(st, name))
  {
    var st', q := StepDestroyProvider(st, name), st.queues[name];
    DropProviderKeepsQueue(q, st.handles, DropProvider(q).(ref := q.ref - 1));
    RestKept(st, st', name);
    FdsMoved(st, st', (n, i) => i);
  }

  lemma StepKeepsInv(st: State, r: Request)
    requires Inv(st) && Enabled(st, r)
    ensures Inv(Step(st, r))
  {
    hide Inv;
    match r
    case CreateConsumer(name, queueSize, width, height) => CreateConsumerKeepsInv(st, name, queueSize, width, height);
    case CreateProvider(name) => CreateProviderKeepsInv(st, name);
    case Attach(name, attrs) => AttachKeepsInv(st, name, attrs);
    case SetId(name, h, id, layout) => SetIdKeepsInv(st, name, h, id, layout);
    case SetFd(name, h, fd, layout) => SetFdKeepsInv(st, name, h, fd, layout);
    case Detach(name, h) => DetachKeepsInv(st, name, h);
    case Enqueue(name, h, serial) => EnqueueKeepsInv(st, name, h, serial);
    case Release(name, h) => ReleaseKeepsInv(st, name, h);
    case DestroyConsumer(name) => DestroyConsumerKeepsInv(st, name);
    case DestroyProvider(name) => DestroyProviderKeepsInv(st, name);
  }

  /** Every state of every run satisfies the invariant. */
  lemma {:induction false} RunKeepsInv(st: State, rs: seq<Request>)
    requires Inv(st) && IsRun(st, rs)
    ensures Inv(Run(st, rs))
    decreases |rs|
  {
    if rs != [] {
      StepKeepsInv(st, rs[0]);
      RunKeepsInv(Step(st, rs[0]), rs[1..]);
    }
  }

  // ---------- what a legal log looks like, event by event ----------

  ghost predicate AboutBuffer(e: ConsumerEvent) {
    e.Attached? || e.SetBufferId? || e.SetBufferFd? || e.Detached? || e.AddBuffer?
  }

  /** Position i lies after a connected with no disconnected in between. */
  ghost predicate InsideConnection(log: seq<ConsumerEvent>, i: int) {
    exists j | 0 <= j < i <= |log| :: log[j] == Connected && forall k | j < k < i :: log[k] != Disconnected
  }

  ghost predicate IsAttachOf(e: ConsumerEvent, h: nat) {
    e.Attached? && e.handle == h
  }

  /** Buffer h was attached before position i, at a. */
  ghost predicate AttachedAt(log: seq<ConsumerEvent>, h: nat, a: int, i: int) {
    0 <= a < i <= |log| && IsAttachOf(log[a], h)
  }

  ghost predicate DetachedBetween(log: seq<ConsumerEvent>, h: nat, a: int, i: int) {
    exists k | a < k < i <= |log| :: 0 <= k && log[k] == Detached(h)
  }

  /** The protocol as its rules for a consumer's log, without any replay:
      connected and disconnected alternate, connected first; buffer events stay inside a connection;
      a buffer is attached at most once; what is set, added or detached has been attached and not
      detached; disconnected comes only when every attached buffer has been detached. */
  ghost predicate ProtocolKept(log: seq<ConsumerEvent>) {
    && (forall i | 0 <= i < |log| && (AboutBuffer(log[i]) || log[i] == Disconnected) :: InsideConnection(log, i))
    && (forall i | 0 <= i < |log| && log[i] == Connected :: !InsideConnection(log, i))
    && (forall h, i, j | AttachedAt(log, h, i, j) && j < |log| :: !IsAttachOf(log[j], h))
    && (forall i | 0 <= i < |log| && AboutBuffer(log[i]) && !log[i].Attached? ::
          exists a :: AttachedAt(log, log[i].handle, a, i) && !DetachedBetween(log, log[i].handle, a, i))
    && (forall i, h, a | 0 <= i < |log| && log[i] == Disconnected && AttachedAt(log, h, a, i) ::
          DetachedBetween(log, h, a, i))
  }

  /** What the view after the first i events says about those events. */
  ghost predicate ViewMeans(log: seq<ConsumerEvent>, i: nat, v: View)
    requires i <= |log|
  {
    && v.connected == InsideConnection(log, i)
    && (forall h :: h in v.used <==> exists a :: AttachedAt(log, h, a, i))
    && (forall h, a | AttachedAt(log, h, a, i) :: SeesHandle(v.seen, h) <==> !DetachedBetween(log, h, a, i))
    && (forall h | SeesHandle(v.seen, h) :: h in v.used)
  }

  lemma SetSeenHandles(seen: seq<Seen>, h: nat, isFd: bool, id: int, layout: Layout, k: nat)
    ensures SeesHandle(SetSeen(seen, h, isFd, id, layout), k) <==> SeesHandle(seen, k)
  {
    var r := SetSeen(seen, h, isFd, id, layout);
    forall i | 0 <= i < |seen| ensures r[i].handle == seen[i].handle {
    }
  }

  lemma DropSeenHandles(seen: seq<Seen>, h: nat, k: nat)
    ensures SeesHandle(DropSeen(seen, h), k) <==> (SeesHandle(seen, k) && k != h)
  {
    if seen != [] {
      DropSeenHandles(seen[1..], h, k);
      SeesHandleCons(seen[0], seen[1..], k);
      assert [seen[0]] + seen[1..] == seen;
      SeesHandleCons(seen[0], DropSeen(seen[1..], h), k);
    }
  }

  lemma SeesHandleCons(x: Seen, s: seq<Seen>, k: nat)
    ensures SeesHandle([x] + s, k) <==> x.handle == k || SeesHandle(s, k)
  {
    var t := [x] + s;
    assert t[0] == x;
    assert forall i | 0 <= i < |s| :: t[i + 1] == s[i];
  }

  lemma SeesHandleSnoc(s: seq<Seen>, x: Seen, k: nat)
    ensures SeesHandle(s + [x], k) <==> SeesHandle(s, k) || x.handle == k
  {
    var t := s + [x];
    assert t[|s|] == x;
    assert forall i | 0 <= i < |s| :: t[i] == s[i];
  }

  lemma InsideStep(log: seq<ConsumerEvent>, i: nat)
    requires i < |log|
    ensures InsideConnection(log, i + 1) <==>
              log[i] == Connected || (InsideConnection(log, i) && log[i] != Disconnected)
  {
    if log[i] != Connected && log[i] != Disconnected && InsideConnection(log, i) {
      var j :| 0 <= j < i && log[j] == Connected && forall k | j < k < i :: log[k] != Disconnected;
      assert forall k | j < k < i + 1 :: log[k] != Disconnected;
    }
  }

  lemma AttachedStep(log: seq<ConsumerEvent>, h: nat, a: int, i: nat)
    requires i < |log|
    ensures AttachedAt(log, h, a, i + 1) <==> AttachedAt(log, h, a, i) || (a == i && IsAttachOf(log[i], h))
    ensures a < i ==> (DetachedBetween(log, h, a, i + 1) <==>
                         DetachedBetween(log, h, a, i) || (a < i && 0 <= i && log[i] == Detached(h)))
  {
  }

  lemma StepSees(v: View, e: ConsumerEvent, v': View, k: nat)
    requires ReplayStep(Some(v), e) == Some(v')
    ensures SeesHandle(v'.seen, k) <==> (SeesHandle(v.seen, k) && e != Detached(k)) || IsAttachOf(e, k)
    ensures k in v'.used <==> k in v.used || IsAttachOf(e, k)
  {
    match e
    case Connected =>
    case Disconnected =>
    case Attached(h, attrs) => SeesHandleSnoc(v.seen, Seen(h, attrs, false, BLANK.id, BLANK.layout), k);
    case SetBufferId(h, id, layout) => SetSeenHandles(v.seen, h, false, id, layout, k);
    case SetBufferFd(h, fd, layout) => SetSeenHandles(v.seen, h, true, fd, layout, k);
    case Detached(h) => DropSeenHandles(v.seen, h, k);
    case AddBuffer(_, _) =>
  }

  lemma ViewStep(log: seq<ConsumerEvent>, i: nat, v: View, v': View)
    requires i < |log| && ViewMeans(log, i, v) && ReplayStep(Some(v), log[i]) == Some(v')
    ensures ViewMeans(log, i + 1, v')
  {
    InsideStep(log, i);
    var n := i + 1;
    forall h ensures h in v'.used <==> exists a :: AttachedAt(log, h, a, n) {
      StepSees(v, log[i], v', h);
      if h in v'.used {
        if h in v.used {
          var a :| AttachedAt(log, h, a, i);
          assert AttachedAt(log, h, a, n);
        } else {
          assert AttachedAt(log, h, i, i + 1);
        }
      } else {
        forall a ensures !AttachedAt(log, h, a, n) { AttachedStep(log, h, a, i); }
      }
    }
    forall h, a | AttachedAt(log, h, a, n) ensures SeesHandle(v'.seen, h) <==> !DetachedBetween(log, h, a, n) {
      StepSees(v, log[i], v', h);
      AttachedStep(log, h, a, i);
    }
    forall h | SeesHandle(v'.seen, h) ensures h in v'.used { StepSees(v, log[i], v', h); }
  }

  lemma {:induction false} ViewsMean(log: seq<ConsumerEvent>, i: nat)
    requires i <= |log| && Replay(log).Some?
    ensures Replay(log[..i]).Some? && ViewMeans(log, i, Replay(log[..i]).value)
    decreases i
  {
    var v := Some(View(false, [], {}));
    assert log == log[..i] + log[i..];
    ReplayAppend(v, log[..i], log[i..]);
    ReplayNone(log[i..]);
    if i > 0 {
      ViewsMean(log, i - 1);
      assert log[..i][..i - 1] == log[..i - 1];
      ViewStep(log, i - 1, Replay(log[..i - 1]).value, Replay(log[..i]).value);
    }
  }

  lemma {:induction false} ReplayNone(es: seq<ConsumerEvent>)
    ensures ReplayFrom(None, es) == None
    decreases |es|
  {
    if es != [] { ReplayNone(es[..|es| - 1]); }
  }

  /** A log that replays without failing keeps every rule of the protocol. */
  lemma LegalLogKeepsProtocol(log: seq<ConsumerEvent>)
    requires Replay(log).Some?
    ensures ProtocolKept(log)
  {
    forall i | 0 <= i < |log|
      ensures AboutBuffer(log[i]) || log[i] == Disconnected ==> InsideConnection(log, i)
      ensures log[i] == Connected ==> !InsideConnection(log, i)
      ensures forall h, a | IsAttachOf(log[i], h) :: !AttachedAt(log, h, a, i)
      ensures AboutBuffer(log[i]) && !log[i].Attached? ==>
                exists a :: AttachedAt(log, log[i].handle, a, i) && !DetachedBetween(log, log[i].handle, a, i)
      ensures forall h, a | log[i] == Disconnected && AttachedAt(log, h, a, i) :: DetachedBetween(log, h, a, i)
    {
      ViewsMean(log, i);
      ViewsMean(log, i + 1);
      assert log[..i + 1][..i] == log[..i];
      var v := Replay(log[..i]).value;
      assert ReplayStep(Some(v), log[i]).Some?;
      if AboutBuffer(log[i]) && !log[i].Attached? {
        var h := log[i].handle;
        assert SeesHandle(v.seen, h) && h in v.used;
        var a :| AttachedAt(log, h, a, i);
        assert !DetachedBetween(log, h, a, i);
      }
    }
    forall h, i, j | AttachedAt(log, h, i, j) && j < |log| ensures !IsAttachOf(log[j], h) {
    }
  }

  ghost predicate InsideProviderConnection(log: seq<ProviderEvent>, i: int) {
    exists j | 0 <= j < i <= |log| ::
      log[j].ProviderConnected? && forall k | j < k < i :: log[k] != ProviderDisconnected
  }

  /** Connected and disconnected alternate, and buffers are handed back only while connected. */
  ghost predicate ProviderProtocolKept(log: seq<ProviderEvent>) {
    forall i | 0 <= i < |log| :: log[i].ProviderConnected? <==> !InsideProviderConnection(log, i)
  }

  lemma {:induction false} ProviderPrefix(log: seq<ProviderEvent>, i: nat)
    requires i <= |log| && ReplayProvider(log).Some?
    ensures ReplayProvider(log[..i]) == Some(InsideProviderConnection(log, i))
    ensures i < |log| ==> ReplayProviderStep(ReplayProvider(log[..i]), log[i]).Some?
    decreases |log| - i, 1
  {
    ProviderLegalPrefix(log, i);
    ProviderMeans(log, i);
  }

  lemma {:induction false} ProviderLegalPrefix(log: seq<ProviderEvent>, i: nat)
    requires i <= |log| && ReplayProvider(log).Some?
    ensures ReplayProvider(log[..i]).Some?
    ensures i < |log| ==> ReplayProviderStep(ReplayProvider(log[..i]), log[i]).Some?
    decreases |log| - i, 0
  {
    if i == |log| {
      assert log[..i] == log;
    } else {
      ProviderLegalPrefix(log, i + 1);
      assert log[..i + 1][..i] == log[..i];
    }
  }

  lemma {:induction false} ProviderMeans(log: seq<ProviderEvent>, i: nat)
    requires i <= |log| && ReplayProvider(log).Some?
    ensures ReplayProvider(log[..i]).Some? && ReplayProvider(log[..i]).value == InsideProviderConnection(log, i)
    decreases i
  {
    ProviderLegalPrefix(log, i);
    if i > 0 {
      ProviderLegalPrefix(log, i - 1);
      ProviderMeans(log, i - 1);
      assert log[..i][..i - 1] == log[..i - 1];
      if InsideProviderConnection(log, i - 1) && log[i - 1] != ProviderDisconnected {
        var j :| 0 <= j < i - 1 && log[j].ProviderConnected?
                 && forall k | j < k < i - 1 :: log[k] != ProviderDisconnected;
        assert forall k | j < k < i :: log[k] != ProviderDisconnected;
      }
    }
  }

  lemma LegalProviderLogKeepsProtocol(log: seq<ProviderEvent>)
    requires ReplayProvider(log).Some?
    ensures ProviderProtocolKept(log)
  {
    forall i | 0 <= i < |log| ensures log[i].ProviderConnected? <==> !InsideProviderConnection(log, i) {
      ProviderPrefix(log, i);
    }
  }

  // ---------- the main results ----------

  /** In every run, a connected client's log rebuilds its queue: the consumer's view is the queue's
      current buffer list, whether it joined before or after the buffers. */
  lemma ConsumerRebuildsQueue(rs: seq<Request>, name: string)
    requires IsRun(INITIAL, rs) && HasConsumer(Run(INITIAL, rs), name)
    ensures var q := Run(INITIAL, rs).queues[name];
      var v := Replay(q.consumer.value.log);
      && v.Some? && v.value.seen == Visible(q.buffers) && v.value.connected == q.provider.Some?
  {
    RunKeepsInv(INITIAL, rs);
  }

  /** In every run, every log of a consumer or provider, live or destroyed, keeps the protocol. */
  lemma LogsKeepProtocol(rs: seq<Request>)
    requires IsRun(INITIAL, rs)
    ensures var st := Run(INITIAL, rs);
      && (forall n | HasConsumer(st, n) :: ProtocolKept(st.queues[n].consumer.value.log))
      && (forall n | HasProvider(st, n) :: ProviderProtocolKept(st.queues[n].provider.value.log))
      && (forall i | 0 <= i < |st.endedConsumers| :: ProtocolKept(st.endedConsumers[i]))
      && (forall i | 0 <= i < |st.endedProviders| :: ProviderProtocolKept(st.endedProviders[i]))
  {
    var st := Run(INITIAL, rs);
    RunKeepsInv(INITIAL, rs);
    hide ProtocolKept, ProviderProtocolKept;
    forall n | HasConsumer(st, n) ensures ProtocolKept(st.queues[n].consumer.value.log) {
      assert QueueInv(st.queues[n], st.handles);
      LegalLogKeepsProtocol(st.queues[n].consumer.value.log);
    }
    forall n | HasProvider(st, n) ensures ProviderProtocolKept(st.queues[n].provider.value.log) {
      assert QueueInv(st.queues[n], st.handles);
      LegalProviderLogKeepsProtocol(st.queues[n].provider.value.log);
    }
    forall i | 0 <= i < |st.endedConsumers| ensures ProtocolKept(st.endedConsumers[i]) {
      LegalLogKeepsProtocol(st.endedConsumers[i]);
    }
    forall i | 0 <= i < |st.endedProviders| ensures ProviderProtocolKept(st.endedProviders[i]) {
      LegalProviderLogKeepsProtocol(st.endedProviders[i]);
    }
  }

  /** In every run, references count exactly what refers, buffers exist only under a provider and
      have a consumer side exactly when the queue has a consumer, only queues in use are registered,
      and no fd has been closed twice. */
  lemma ReferencesExact(rs: seq<Request>)
    requires IsRun(INITIAL, rs)
    ensures var st := Run(INITIAL, rs);
      && (forall n | n in st.queues :: var q := st.queues[n];
            && q.ref == One(q.consumer.Some?) + One(q.provider.Some?) && q.ref >= 1
            && (q.provider.None? ==> q.buffers == [])
            && (forall i | 0 <= i < |q.buffers| :: var b := q.buffers[i];
                  b.ref == One(b.consumerSide) + One(b.providerSide) && b.providerSide
                  && b.consumerSide == q.consumer.Some?))
      && NoDup(st.closed)
  {
    RunKeepsInv(INITIAL, rs);
  }
}
