/** The registry of channels over the value heap, each operation one atomic step. */
module Channels {
  import opened RtValues
  import opened Wrappers
  import Lists
  import RefCounts
  import RtHeap

  type Value = Ptr
  type Handle = int

  datatype Error = AlreadyClosed | Disconnected | Invalid | Timeout

  /** A channel, known by the handle of its sending end. */
  datatype Channel = Channel(rx: Handle, queue: seq<Value>)

  /** Everything that ever went into one channel: taken out by the receiver, or released by its close. */
  datatype Log = Log(sent: seq<Value>, delivered: seq<Value>, released: seq<Value>)

  type Channels = map<Handle, Channel>
  type Receivers = map<Handle, Handle>

  /** The receiving end of channel `c` is open. */
  predicate Listens(c: Handle, channels: Channels, receivers: Receivers)
    requires c in channels
  {
    channels[c].rx in receivers && receivers[channels[c].rx] == c
  }

  ghost predicate Sound(next: Handle, senders: set<Handle>, receivers: Receivers, closed: set<Handle>, channels: Channels) {
    && (forall h :: h in closed ==> h < next)
    && (forall c :: c in channels ==> c < next && channels[c].rx < next)
    && (forall h :: h in senders ==> h in channels && h !in closed && h !in receivers)
    && forall r :: r in receivers ==>
         receivers[r] in channels && channels[receivers[r]].rx == r && r !in closed && r !in channels
  }

  /** What was sent is what was delivered, then what was released or still waits, in that order. */
  ghost predicate Balanced(channel: Channel, log: Log, listens: bool) {
    && log.sent == log.delivered + log.released + channel.queue
    && if listens then log.released == [] else channel.queue == []
  }

  ghost predicate Accounted(receivers: Receivers, channels: Channels, logs: map<Handle, Log>) {
    && (forall c :: c in channels <==> c in logs)
    && forall c :: c in channels ==> Balanced(channels[c], logs[c], Listens(c, channels, receivers))
  }

  /** One channel's queue and log change, in balance. */
  lemma OneChannel(next: Handle, senders: set<Handle>, receivers: Receivers, closed: set<Handle>, channels: Channels,
                   logs: map<Handle, Log>, c: Handle, queue: seq<Value>, log: Log)
    requires Sound(next, senders, receivers, closed, channels) && Accounted(receivers, channels, logs)
    requires c in channels && Balanced(Channel(channels[c].rx, queue), log, Listens(c, channels, receivers))
    ensures var after := channels[c := channels[c].(queue := queue)];
            Sound(next, senders, receivers, closed, after) && Accounted(receivers, after, logs[c := log])
  {
    var after := channels[c := channels[c].(queue := queue)];
    assert forall d :: d in channels ==> Listens(d, after, receivers) == Listens(d, channels, receivers);
  }

  lemma NewChannel(next: Handle, senders: set<Handle>, receivers: Receivers, closed: set<Handle>, channels: Channels,
                   logs: map<Handle, Log>)
    requires Sound(next, senders, receivers, closed, channels) && Accounted(receivers, channels, logs)
    ensures var tx, rx := next, next + 1;
            var after, listening := channels[tx := Channel(rx, [])], receivers[rx := tx];
            && Sound(next + 2, senders + {tx}, listening, closed, after)
            && Accounted(listening, after, logs[tx := Log([], [], [])])
  {
    var tx, rx := next, next + 1;
    var after, listening := channels[tx := Channel(rx, [])], receivers[rx := tx];
    forall r | r in receivers ensures r < next {
      var c := receivers[r];
      assert c in channels && channels[c].rx == r;
    }
    assert forall d :: d in channels ==> Listens(d, after, listening) == Listens(d, channels, receivers);
  }

  lemma ClosedReceiver(next: Handle, senders: set<Handle>, receivers: Receivers, closed: set<Handle>, channels: Channels,
                       logs: map<Handle, Log>, rx: Handle)
    requires Sound(next, senders, receivers, closed, channels) && Accounted(receivers, channels, logs)
    requires rx in receivers
    ensures var c := receivers[rx];
            var after := channels[c := channels[c].(queue := [])];
            && Sound(next, senders - {rx}, receivers - {rx}, closed + {rx}, after)
            && Accounted(receivers - {rx}, after, logs[c := logs[c].(released := channels[c].queue)])
  {
    var c := receivers[rx];
    var after := channels[c := channels[c].(queue := [])];
    assert !Listens(c, after, receivers - {rx}) && Listens(c, channels, receivers);
    assert forall d :: d in channels && d != c ==> Listens(d, after, receivers - {rx}) == Listens(d, channels, receivers);
    var log := logs[c];
    assert log.delivered + [] + channels[c].queue == log.delivered + channels[c].queue + [];
  }

  // ----- the registry as a value, and its steps -----

  datatype State = State(next: Handle, senders: set<Handle>, receivers: Receivers, closed: set<Handle>, channels: Channels,
                         logs: map<Handle, Log>)

  /** A new channel, a value sent, the first values taken out, or a handle closed. */
  datatype Event = Open | Send(tx: Handle, v: Value) | Take(rx: Handle, n: nat) | Close(h: Handle)

  ghost predicate Good(s: State) {
    Sound(s.next, s.senders, s.receivers, s.closed, s.channels) && Accounted(s.receivers, s.channels, s.logs)
  }

  /** An event that cannot happen changes nothing. */
  function Next(s: State, e: Event): State {
    match e
    case Open =>
      State(s.next + 2, s.senders + {s.next}, s.receivers[s.next + 1 := s.next], s.closed,
            s.channels[s.next := Channel(s.next + 1, [])], s.logs[s.next := Log([], [], [])])
    case Send(tx, v) =>
      if tx in s.senders && tx in s.channels && tx in s.logs && Listens(tx, s.channels, s.receivers) then
        s.(channels := s.channels[tx := s.channels[tx].(queue := s.channels[tx].queue + [v])],
           logs := s.logs[tx := s.logs[tx].(sent := s.logs[tx].sent + [v])])
      else s
    case Take(rx, n) =>
      if rx in s.receivers && s.receivers[rx] in s.channels && s.receivers[rx] in s.logs &&
         n <= |s.channels[s.receivers[rx]].queue| then Taken(s, s.receivers[rx], n)
      else s
    case Close(h) =>
      if h in s.receivers && s.receivers[h] in s.channels && s.receivers[h] in s.logs then
        var c := s.receivers[h];
        State(s.next, s.senders - {h}, s.receivers - {h}, s.closed + {h},
              s.channels[c := s.channels[c].(queue := [])], s.logs[c := s.logs[c].(released := s.channels[c].queue)])
      else if h in s.senders then s.(senders := s.senders - {h}, closed := s.closed + {h})
      else s
  }

  function Taken(s: State, c: Handle, n: nat): State
    requires c in s.channels && c in s.logs && n <= |s.channels[c].queue|
  {
    var queue, log := s.channels[c].queue, s.logs[c];
    s.(channels := s.channels[c := s.channels[c].(queue := queue[n..])],
       logs := s.logs[c := log.(delivered := log.delivered + queue[..n])])
  }

  // ----- the references that wait in the queues -----

  ghost function Queues(channels: Channels): map<Handle, multiset<Value>> {
    map c | c in channels :: multiset(channels[c].queue)
  }

  /** Each waiting value is there with one reference. */
  ghost function Waiting(channels: Channels): multiset<Value> {
    Sum(Queues(channels))
  }

  lemma WaitingChanges(channels: Channels, c: Handle, queue: seq<Value>)
    requires c in channels
    ensures var after := channels[c := channels[c].(queue := queue)];
            Waiting(after) + multiset(channels[c].queue) == Waiting(channels) + multiset(queue)
  {
    var after := channels[c := channels[c].(queue := queue)];
    SumRemove(Queues(channels), c);
    SumRemove(Queues(after), c);
    assert Queues(after) - {c} == Queues(channels) - {c};
  }

  lemma WaitingOpens(channels: Channels, c: Handle, rx: Handle)
    requires c !in channels
    ensures Waiting(channels[c := Channel(rx, [])]) == Waiting(channels)
  {
    assert Queues(channels[c := Channel(rx, [])]) == Queues(channels)[c := multiset{}];
    SumAdd(Queues(channels), c, multiset{});
  }

  lemma NothingWaits()
    ensures Waiting(map[]) == multiset{}
  {
    assert Queues(map[]) == map[];
  }

  lemma OneMore(w: multiset<Value>, w': multiset<Value>, queue: seq<Value>, v: Value)
    requires w' + multiset(queue) == w + multiset(queue + [v])
    ensures w' == w + multiset{v}
  {
    assert multiset(queue + [v]) == multiset(queue) + multiset{v};
    assert w + (multiset(queue) + multiset{v}) == w + multiset{v} + multiset(queue);
    Cancel(w', w + multiset{v}, multiset(queue));
  }

  lemma FewerWait(w: multiset<Value>, w': multiset<Value>, queue: seq<Value>, n: nat)
    requires n <= |queue| && w' + multiset(queue) == w + multiset(queue[n..])
    ensures w' + multiset(queue[..n]) == w
  {
    assert queue == queue[..n] + queue[n..];
    assert w' + multiset(queue[..n]) + multiset(queue[n..]) == w' + multiset(queue);
    Cancel(w' + multiset(queue[..n]), w, multiset(queue[n..]));
  }

  lemma QueueWaits(channels: Channels, c: Handle)
    requires c in channels
    ensures multiset(channels[c].queue) <= Waiting(channels)
  {
    SumRemove(Queues(channels), c);
  }

  /** What is held is live. */
  lemma WaitedLive(s: Store, handles: multiset<Ptr>, items: seq<Value>)
    requires RefCounts.Counts(s, handles) && multiset(items) <= handles
    ensures forall i :: 0 <= i < |items| ==> items[i] in s
  {
    forall i | 0 <= i < |items|
      ensures items[i] in s
    {
      assert items[i] in multiset(items);
      RefCounts.NotNull(s, handles, items[i]);
    }
  }

  lemma HandlesBelow(next: Handle, senders: set<Handle>, receivers: Receivers, closed: set<Handle>, channels: Channels)
    requires Sound(next, senders, receivers, closed, channels)
    ensures next !in channels
  {
  }

  lemma GivenBack(held: multiset<Value>, v: Value)
    ensures held + multiset{v} - multiset{v} == held
  {
  }

  lemma WaitedBelow(w: multiset<Value>, w': multiset<Value>, h: multiset<Value>, x: multiset<Value>)
    requires w <= h && w' + x == w
    ensures x <= h && w' <= h
  {
  }

  lemma EmptyAfter(queue: seq<Value>)
    ensures queue[|queue|..] == [] && queue[..|queue|] == queue
  {
  }

  /** The references held by others than the queues, before and after. */
  lemma OthersSame(w: multiset<Value>, w': multiset<Value>, h: multiset<Value>, h': multiset<Value>, x: multiset<Value>,
                   y: multiset<Value>)
    requires w <= h && w' + y == w + x && h' + y == h + x
    ensures w' <= h' && h' - w' == h - w
  {
    forall v: Value
      ensures w'[v] <= h'[v] && (h' - w')[v] == (h - w)[v]
    {
      assert (w' + y)[v] == (w + x)[v] && (h' + y)[v] == (h + x)[v] && w[v] <= h[v];
    }
  }

  /** References that pass from the queues to others. */
  lemma OthersGain(w: multiset<Value>, w': multiset<Value>, h: multiset<Value>, x: multiset<Value>, more: multiset<Value>)
    requires w <= h && w' + x == w
    ensures w' <= h + more && h + more - w' == h - w + x + more
  {
    forall v: Value
      ensures w'[v] <= (h + more)[v] && (h + more - w')[v] == (h - w + x + more)[v]
    {
      assert (w' + x)[v] == w[v] && w[v] <= h[v];
    }
  }

  class Registry {
    var nextHandle: Handle
    var senders: set<Handle>
    /** The receiving ends, and the channels they belong to. */
    var receivers: Receivers
    var closed: set<Handle>
    var channels: Channels
    ghost var logs: map<Handle, Log>

    ghost predicate Valid()
      reads this
    {
      Sound(nextHandle, senders, receivers, closed, channels) && Accounted(receivers, channels, logs)
    }

    ghost function Now(): State
      reads this
    {
      State(nextHandle, senders, receivers, closed, channels, logs)
    }

    /** The heap holds a reference for each waiting value. */
    ghost predicate Backed(heap: RtHeap.Heap)
      reads this, heap
    {
      heap.Valid() && Waiting(channels) <= heap.handles
    }

    /** The references that everyone but the queues holds. */
    ghost function Others(heap: RtHeap.Heap): multiset<Value>
      reads this, heap
    {
      heap.handles - Waiting(channels)
    }

    constructor ()
      ensures Valid() && Now() == START && Waiting(channels) == multiset{}
    {
      nextHandle := 1;
      senders, receivers, closed, channels, logs := {}, map[], {}, map[], map[];
      new;
      NothingWaits();
    }

    /** Both handles are larger than every handle used before. */
    method New() returns (tx: Handle, rx: Handle)
      requires Valid()
      modifies this
      ensures Valid() && tx != rx && old(nextHandle) <= tx < nextHandle && old(nextHandle) <= rx < nextHandle
      ensures senders == old(senders) + {tx} && receivers == old(receivers)[rx := tx] && closed == old(closed)
      ensures channels == old(channels)[tx := Channel(rx, [])] && logs == old(logs)[tx := Log([], [], [])]
      ensures Now() == Next(old(Now()), Open) && Waiting(channels) == old(Waiting(channels))
    {
      hide Sound, Accounted, Waiting;
      NewChannel(nextHandle, senders, receivers, closed, channels, logs);
      HandlesBelow(nextHandle, senders, receivers, closed, channels);
      WaitingOpens(channels, nextHandle, nextHandle + 1);
      tx, rx := nextHandle, nextHandle + 1;
      nextHandle := nextHandle + 2;
      senders := senders + {tx};
      receivers := receivers[rx := tx];
      channels := channels[tx := Channel(rx, [])];
      logs := logs[tx := Log([], [], [])];
    }

    /** The value is sent exactly when the sending end is open and its receiver too. The reference taken
        for the receiver is kept exactly then, and waits with the value. */
    method Send(heap: RtHeap.Heap, tx: Handle, v: Value) returns (r: Result<(), Error>)
      requires Valid() && Backed(heap) && v in heap.cells
      modifies `channels, `logs, heap`cells, heap`handles, heap`crowded
      ensures Valid() && Backed(heap) && Others(heap) == old(Others(heap))
      ensures heap.handles == if r.Ok? then old(heap.handles) + multiset{v} else old(heap.handles)
      ensures r.Ok? <==> tx in senders && tx in old(channels) && Listens(tx, old(channels), receivers)
      ensures r.Ok? ==>
                && channels == old(channels)[tx := old(channels[tx]).(queue := old(channels[tx].queue) + [v])]
                && tx in old(logs) && logs == old(logs)[tx := old(logs[tx]).(sent := old(logs[tx].sent) + [v])]
      ensures r.Err? ==> logs == old(logs) && channels == old(channels)
      ensures tx in closed ==> r == Err(AlreadyClosed)
      ensures Now() == Next(old(Now()), Event.Send(tx, v))
    {
      hide Waiting, Sound, Accounted, RtHeap.Sound, RtHeap.PoolCells, RtHeap.PoolFull, RtHeap.Marked;
      ghost var held := heap.handles;
      RtHeap.CanRetain(heap.cells, heap.handles, v);
      heap.Retain(v);
      GivenBack(held, v);
      if tx in closed {
        ClosedIsNoSender(tx);
        GiveBack(heap, v);
        return Err(AlreadyClosed);
      }
      if tx !in senders {
        GiveBack(heap, v);
        return Err(Invalid);
      }
      SenderHasChannel(tx);
      if !Listens(tx, channels, receivers) {
        GiveBack(heap, v);
        return Err(Disconnected);
      }
      Enqueue(tx, v);
      OthersSame(old(Waiting(channels)), Waiting(channels), held, heap.handles, multiset{v}, multiset{});
      return Ok(());
    }

    lemma ClosedIsNoSender(h: Handle)
      requires Valid() && h in closed
      ensures h !in senders && h !in receivers
    {
    }

    lemma SenderHasChannel(h: Handle)
      requires Valid() && h in senders
      ensures h in channels && h in logs
    {
    }

    lemma ReceiverHasChannel(h: Handle)
      requires Valid() && h in receivers
      ensures receivers[h] in channels && receivers[h] in logs && Listens(receivers[h], channels, receivers)
    {
      var c := receivers[h];
      assert c in channels && channels[c].rx == h;
      assert c in channels <==> c in logs;
    }

    /** The reference that a failed send took. */
    method GiveBack(heap: RtHeap.Heap, v: Value)
      requires heap.Valid() && v in heap.handles
      modifies heap`cells, heap`handles, heap`crowded
      ensures heap.Valid() && heap.handles == old(heap.handles) - multiset{v}
    {
      RtHeap.SoundCounts(heap.cells, heap.handles);
      heap.Release(v);
    }

    /** Puts a value at the end of a queue. */
    method Enqueue(tx: Handle, v: Value)
      requires Valid() && tx in senders && tx in channels && Listens(tx, channels, receivers)
      modifies `channels, `logs
      ensures Valid() && tx in old(logs)
      ensures channels == old(channels)[tx := old(channels[tx]).(queue := old(channels[tx].queue) + [v])]
      ensures logs == old(logs)[tx := old(logs[tx]).(sent := old(logs[tx].sent) + [v])]
      ensures Waiting(channels) == old(Waiting(channels)) + multiset{v}
    {
      ghost var log := logs[tx];
      var queue := channels[tx].queue + [v];
      assert log.sent + [v] == log.delivered + log.released + queue;
      OneChannel(nextHandle, senders, receivers, closed, channels, logs, tx, queue, log.(sent := log.sent + [v]));
      WaitingChanges(channels, tx, queue);
      OneMore(Waiting(channels), Waiting(channels[tx := channels[tx].(queue := queue)]), channels[tx].queue, v);
      hide *;
      channels := channels[tx := channels[tx].(queue := queue)];
      logs := logs[tx := log.(sent := log.sent + [v])];
    }

    /** The oldest waiting value with its reference, an error when none can come any more, or nothing yet
        (`blocks`). */
    method Receive(ghost heap: RtHeap.Heap, rx: Handle) returns (r: Result<Value, Error>, blocks: bool)
      requires Valid() && Backed(heap)
      modifies `channels, `logs
      ensures Valid() && Backed(heap)
      ensures Others(heap) == if r.Ok? then old(Others(heap)) + multiset{r.value} else old(Others(heap))
      ensures r.Ok? <==> rx in receivers && receivers[rx] in old(channels) && old(channels[receivers[rx]].queue) != []
      ensures r.Ok? ==>
                var c, was := receivers[rx], old(channels[receivers[rx]].queue);
                && r.value == was[0] && channels == old(channels)[c := old(channels[receivers[rx]]).(queue := was[1..])]
                && c in old(logs) && logs == old(logs)[c := old(logs)[c].(delivered := old(logs)[c].delivered + [r.value])]
      ensures r.Err? ==> logs == old(logs) && channels == old(channels)
      ensures rx in closed ==> r == Err(AlreadyClosed)
      ensures Now() == Next(old(Now()), Take(rx, 1))
      ensures blocks ==> r.Err? && rx in receivers && receivers[rx] in senders
      ensures !blocks && rx in receivers && r.Err? ==> r == Err(Disconnected) && receivers[rx] !in senders
    {
      hide Waiting, Sound, Accounted, RtHeap.Sound, RtHeap.PoolCells, RtHeap.PoolFull, RtHeap.Marked;
      blocks := false;
      if rx in closed {
        ClosedIsNoSender(rx);
        return Err(AlreadyClosed), false;
      }
      if rx !in receivers {
        return Err(Invalid), false;
      }
      ReceiverHasChannel(rx);
      var c := receivers[rx];
      var was := channels[c].queue;
      if was == [] {
        return Err(if c in senders then Timeout else Disconnected), c in senders;
      }
      assert was[..1] == [was[0]];
      Deliver(c, 1);
      OthersGain(old(Waiting(channels)), Waiting(channels), heap.handles, multiset{was[0]}, multiset{});
      return Ok(was[0]), false;
    }

    /** The first `n` waiting values go to the receiver, with their references. */
    method Deliver(c: Handle, n: nat)
      requires Valid() && c in channels && Listens(c, channels, receivers) && n <= |channels[c].queue|
      modifies `channels, `logs
      ensures Valid() && c in old(logs)
      ensures channels == old(channels)[c := old(channels[c]).(queue := old(channels[c].queue)[n..])]
      ensures logs == old(logs)[c := old(logs[c]).(delivered := old(logs[c].delivered) + old(channels[c].queue)[..n])]
      ensures Waiting(channels) + multiset(old(channels[c].queue)[..n]) == old(Waiting(channels))
    {
      ghost var log := logs[c];
      var queue := channels[c].queue;
      assert log.delivered + [] + queue == log.delivered + queue[..n] + [] + queue[n..];
      ghost var after := log.(delivered := log.delivered + queue[..n]);
      OneChannel(nextHandle, senders, receivers, closed, channels, logs, c, queue[n..], after);
      WaitingChanges(channels, c, queue[n..]);
      FewerWait(Waiting(channels), Waiting(channels[c := channels[c].(queue := queue[n..])]), queue, n);
      hide *;
      channels := channels[c := channels[c].(queue := queue[n..])];
      logs := logs[c := after];
    }

    /** Everything that waits, oldest first, as a list. The list takes a reference of its own to each item,
        so the references that came with the items stay behind: the caller gets the list, and the items
        are counted once more than anyone will give back. */
    method Drain(heap: RtHeap.Heap, rx: Handle) returns (r: Result<Value, Error>)
      requires Valid() && Backed(heap)
      modifies `channels, `logs, heap`cells, heap`handles, heap`crowded
      ensures Valid() && Backed(heap)
      ensures r.Ok? <==> rx in receivers
      ensures r.Ok? ==>
                var c, items := receivers[rx], old(channels)[receivers[rx]].queue;
                && c in old(channels) && channels == old(channels)[c := old(channels)[c].(queue := [])]
                && c in old(logs) && logs == old(logs)[c := old(logs)[c].(delivered := old(logs)[c].delivered + items)]
                && r.value !in old(heap.cells) && Lists.Shows(heap.cells, r.value, items)
                && heap.handles == old(heap.handles) + multiset{r.value}
                && Others(heap) == old(Others(heap)) + multiset(items) + multiset{r.value}
      ensures r.Err? ==> logs == old(logs) && channels == old(channels) && heap.handles == old(heap.handles)
      ensures Now() == Next(old(Now()), Take(rx, if r.Ok? then |old(channels)[receivers[rx]].queue| else 0))
    {
      hide Waiting, Sound, Accounted, RtHeap.Sound, RtHeap.PoolCells, RtHeap.PoolFull, RtHeap.Marked, Lists.Shows;
      if rx in closed {
        ClosedIsNoSender(rx);
        return Err(AlreadyClosed);
      }
      if rx !in receivers {
        return Err(Invalid);
      }
      ReceiverHasChannel(rx);
      var c := receivers[rx];
      ghost var waited, held := Waiting(channels), heap.handles;
      var items := TakeAll(c);
      WaitedBelow(waited, Waiting(channels), held, multiset(items));
      RtHeap.SoundCounts(heap.cells, heap.handles);
      WaitedLive(heap.cells, heap.handles, items);
      var list := Lists.ListNew(heap, items);
      OthersGain(waited, Waiting(channels), held, multiset(items), multiset{list});
      EmptyAfter(old(channels)[c].queue);
      return Ok(list);
    }

    /** The loop that empties a queue. */
    method TakeAll(c: Handle) returns (items: seq<Value>)
      requires Valid() && c in channels && Listens(c, channels, receivers)
      modifies `channels, `logs
      ensures Valid() && c in old(logs) && items == old(channels)[c].queue
      ensures channels == old(channels)[c := old(channels)[c].(queue := [])]
      ensures logs == old(logs)[c := old(logs)[c].(delivered := old(logs)[c].delivered + items)]
      ensures Waiting(channels) + multiset(items) == old(Waiting(channels))
    {
      hide Waiting;
      ghost var was, waited := channels[c].queue, Waiting(channels);
      ghost var before, logged := channels, logs;
      items := [];
      assert logs[c].delivered + [] == logs[c].delivered;
      while channels[c].queue != []
        invariant Valid() && c in channels && was == items + channels[c].queue
        invariant channels == before[c := before[c].(queue := channels[c].queue)]
        invariant c in logged && logs == logged[c := logged[c].(delivered := logged[c].delivered + items)]
        invariant Waiting(channels) + multiset(items) == waited
        decreases |channels[c].queue|
      {
        var queue := channels[c].queue;
        assert queue[..1] == [queue[0]];
        assert logged[c].delivered + items + [queue[0]] == logged[c].delivered + (items + [queue[0]]);
        items := items + [queue[0]];
        Deliver(c, 1);
      }
      assert items + [] == items;
    }

    /** Closing a receiving end releases what waits; a closed handle stays closed. */
    method Close(heap: RtHeap.Heap, h: Handle) returns (open: bool)
      requires Valid() && Backed(heap)
      modifies this, heap`cells, heap`handles, heap`crowded
      ensures Valid() && Backed(heap) && Others(heap) == old(Others(heap)) && nextHandle == old(nextHandle)
      ensures open <==> h in old(senders) || h in old(receivers)
      ensures closed == if open then old(closed) + {h} else old(closed)
      ensures senders == old(senders) - {h} && receivers == old(receivers) - {h}
      ensures h !in old(receivers) ==> logs == old(logs) && channels == old(channels) && heap.handles == old(heap.handles)
      ensures h in old(receivers) ==>
                var c := old(receivers)[h];
                && c in old(channels) && channels == old(channels)[c := old(channels)[c].(queue := [])]
                && c in old(logs) && logs == old(logs)[c := old(logs)[c].(released := old(channels)[c].queue)]
                && heap.handles == old(heap.handles) - multiset(old(channels)[c].queue)
      ensures Now() == Next(old(Now()), Event.Close(h))
    {
      hide Waiting, Accounted, RtHeap.Sound, RtHeap.PoolCells, RtHeap.PoolFull, RtHeap.Marked;
      open := h in senders || h in receivers;
      if h in receivers {
        ReceiverHasChannel(h);
        var c := receivers[h];
        var queue := channels[c].queue;
        QueueWaits(channels, c);
        ReleaseQueue(heap, queue);
        Forget(h, c);
        assert old(heap.handles) - multiset(queue) + multiset(queue) == old(heap.handles);
        OthersSame(old(Waiting(channels)), Waiting(channels), old(heap.handles), heap.handles, multiset{}, multiset(queue));
      } else if open {
        senders := senders - {h};
        closed := closed + {h};
      }
    }

    /** The loop that releases what waits. */
    method ReleaseQueue(heap: RtHeap.Heap, queue: seq<Value>)
      requires heap.Valid() && multiset(queue) <= heap.handles
      modifies heap`cells, heap`handles, heap`crowded
      ensures heap.Valid() && heap.handles == old(heap.handles) - multiset(queue)
    {
      RefCounts.TakeEnds(heap.handles, queue);
      for i := 0 to |queue|
        invariant heap.Valid() && heap.handles == RefCounts.Without(old(heap.handles), queue, i)
      {
        RefCounts.TakeOne(old(heap.handles), queue, i);
        hide RefCounts.Without;
        GiveBack(heap, queue[i]);
      }
    }

    /** A closed receiving end and its queue leave the registry. */
    method Forget(h: Handle, c: Handle)
      requires Valid() && h in receivers && c == receivers[h] && c in channels
      modifies this
      ensures Valid() && nextHandle == old(nextHandle) && closed == old(closed) + {h}
      ensures senders == old(senders) - {h} && receivers == old(receivers) - {h}
      ensures channels == old(channels)[c := old(channels)[c].(queue := [])]
      ensures c in old(logs) && logs == old(logs)[c := old(logs)[c].(released := old(channels)[c].queue)]
      ensures Waiting(channels) + multiset(old(channels)[c].queue) == old(Waiting(channels))
    {
      ClosedReceiver(nextHandle, senders, receivers, closed, channels, logs, h);
      WaitingChanges(channels, c, []);
      assert Waiting(channels) + multiset([]) == Waiting(channels);
      hide *;
      senders := senders - {h};
      receivers := receivers - {h};
      logs := logs[c := logs[c].(released := channels[c].queue)];
      channels := channels[c := channels[c].(queue := [])];
      closed := closed + {h};
    }
  }

  // ----- whole runs -----

  const START := State(1, {}, map[], {}, map[], map[])

  function Run(s: State, es: seq<Event>): State
    decreases |es|
  {
    if es == [] then s else Run(Next(s, es[0]), es[1..])
  }

  predicate IsOpen(s: State, h: Handle) {
    h in s.senders || h in s.receivers
  }

  /** What no event takes back: used handles, closed handles, and what went through each channel. */
  ghost predicate Evolves(s: State, t: State) {
    && s.next <= t.next && s.closed <= t.closed
    && (forall h :: IsOpen(t, h) ==> IsOpen(s, h) || h >= s.next)
    && (forall h :: IsOpen(s, h) ==> IsOpen(t, h) || h in t.closed)
    && (forall c :: c in s.logs ==>
          c in t.logs && s.logs[c].sent <= t.logs[c].sent && s.logs[c].delivered <= t.logs[c].delivered)
  }

  lemma EvolvesTransitive(s: State, t: State, u: State)
    requires Evolves(s, t) && Evolves(t, u)
    ensures Evolves(s, u)
  {
  }

  lemma NextGood(s: State, e: Event)
    requires Good(s)
    ensures Good(Next(s, e))
  {
    match e
    case Open => NewChannel(s.next, s.senders, s.receivers, s.closed, s.channels, s.logs);
    case Send(tx, v) =>
      if Next(s, e) != s {
        var log, queue := s.logs[tx], s.channels[tx].queue + [v];
        assert log.sent + [v] == log.delivered + log.released + queue;
        OneChannel(s.next, s.senders, s.receivers, s.closed, s.channels, s.logs, tx, queue, log.(sent := log.sent + [v]));
      }
    case Take(rx, n) =>
      if Next(s, e) != s {
        var c := s.receivers[rx];
        var t := Taken(s, c, n);
        var queue, log := s.channels[c].queue, s.logs[c];
        assert log.delivered + [] + queue == log.delivered + queue[..n] + [] + queue[n..];
        OneChannel(s.next, s.senders, s.receivers, s.closed, s.channels, s.logs, c, queue[n..], t.logs[c]);
      }
    case Close(h) =>
      if h in s.receivers {
        ClosedReceiver(s.next, s.senders, s.receivers, s.closed, s.channels, s.logs, h);
      }
  }

  lemma NextEvolves(s: State, e: Event)
    requires Good(s)
    ensures Evolves(s, Next(s, e))
  {
  }

  lemma {:induction false} RunGood(s: State, es: seq<Event>)
    requires Good(s)
    ensures Good(Run(s, es)) && Evolves(s, Run(s, es))
    decreases |es|
  {
    if es != [] {
      NextGood(s, es[0]);
      NextEvolves(s, es[0]);
      RunGood(Next(s, es[0]), es[1..]);
      EvolvesTransitive(s, Next(s, es[0]), Run(s, es));
    }
  }

  lemma {:induction false} RunSplit(s: State, es: seq<Event>, i: nat)
    requires i <= |es|
    ensures Run(s, es) == Run(Run(s, es[..i]), es[i..])
    decreases i
  {
    if i == 0 {
      assert es[..0] == [] && es[0..] == es;
    } else {
      RunSplit(Next(s, es[0]), es[1..], i - 1);
      assert es[..i][0] == es[0] && es[..i][1..] == es[1..][..i - 1] && es[1..][i - 1..] == es[i..];
    }
  }

  lemma StartGood()
    ensures Good(START)
  {
  }

  /** In any run from the start, at any two moments: a handle once closed stays closed and is never open
      again, and an open one is at the other moment open or closed; what was sent and what was delivered
      so far are beginnings of what is later; and at each moment the deliveries of a channel are the
      beginning of what was sent into it. */
  lemma RunFacts(es: seq<Event>, i: nat, j: nat)
    requires i <= j <= |es|
    ensures var s, t := Run(START, es[..i]), Run(START, es[..j]);
            && s.closed <= t.closed
            && (forall h :: h in s.closed ==> h !in t.senders && h !in t.receivers)
            && (forall h :: h in s.senders || h in s.receivers ==> h in t.senders || h in t.receivers || h in t.closed)
            && forall c :: c in s.logs ==>
                 && c in t.logs && s.logs[c].sent <= t.logs[c].sent && s.logs[c].delivered <= t.logs[c].delivered
                 && t.logs[c].delivered <= t.logs[c].sent
  {
    var s, t := Run(START, es[..i]), Run(START, es[..j]);
    Moments(es, i, j);
    hide Run, Next;
    forall c | c in s.logs
      ensures t.logs[c].delivered <= t.logs[c].sent
    {
      assert Balanced(t.channels[c], t.logs[c], Listens(c, t.channels, t.receivers));
    }
  }

  /** Two moments of a run: the later one is reached from the earlier. */
  lemma Moments(es: seq<Event>, i: nat, j: nat)
    requires i <= j <= |es|
    ensures var s, t := Run(START, es[..i]), Run(START, es[..j]); Good(s) && Good(t) && Evolves(s, t)
  {
    StartGood();
    RunGood(START, es[..i]);
    RunSplit(START, es[..j], i);
    assert es[..j][..i] == es[..i];
    hide Run, Good, Evolves;
    RunGood(Run(START, es[..i]), es[..j][i..]);
  }

  /** No handle is used twice: a new channel's handles are larger than those of every channel before it,
      than every open and than every closed handle. */
  lemma HandlesAreNew(es: seq<Event>, i: nat, j: nat)
    requires i <= j < |es| && es[j] == Open
    ensures var s, t := Run(START, es[..i]), Run(START, es[..j]);
            && Run(START, es[..j + 1]) == Next(t, Open) && t.next in Next(t, Open).senders && t.next + 1 in Next(t, Open).receivers
            && (forall h :: h in s.senders || h in s.receivers || h in s.closed ==> h < t.next)
            && (i < j && es[i] == Open ==> s.next + 1 < t.next)
  {
    hide Run, Good;
    var s := Run(START, es[..i]);
    Moments(es, i, j);
    RunOneMore(es, j);
    OpenBelow(s);
    if i < j {
      RunOneMore(es, i);
      Moments(es, i + 1, j);
    }
  }

  lemma RunOneMore(es: seq<Event>, i: nat)
    requires i < |es|
    ensures Run(START, es[..i + 1]) == Next(Run(START, es[..i]), es[i])
  {
    RunSplit(START, es[..i + 1], i);
    assert es[..i + 1][..i] == es[..i] && es[..i + 1][i..] == [es[i]] && [es[i]][1..] == [];
  }

  lemma OpenBelow(s: State)
    requires Good(s)
    ensures forall h :: h in s.senders || h in s.receivers || h in s.closed ==> h < s.next
  {
    forall h | h in s.receivers
      ensures h < s.next
    {
      var c := s.receivers[h];
      assert c in s.channels && s.channels[c].rx == h;
    }
    forall h | h in s.senders
      ensures h < s.next
    {
      assert h in s.channels;
    }
  }

  /** What the receiver took so far is the beginning of what was sent; nothing is lost or doubled. */
  lemma DeliveredInOrder(reg: Registry, c: Handle)
    requires reg.Valid() && c in reg.logs
    ensures c in reg.channels && reg.logs[c].delivered <= reg.logs[c].sent
    ensures multiset(reg.logs[c].sent) ==
              multiset(reg.logs[c].delivered) + multiset(reg.logs[c].released) + multiset(reg.channels[c].queue)
    ensures reg.logs[c].released == [] || reg.channels[c].queue == []
  {
  }
}
