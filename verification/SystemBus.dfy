/**
 The pub/sub bus (core/src/system_bus.rs): a reference-counted mesh of topics whose readers peek and poll. Each
 method is one atomic step.
 */
module SystemBus {
  datatype Option<T> = None | Some(value: T)

  datatype Poll<T> = Ready(message: T) | Pending

  /** Messages that one topic buffers for its slowest reader. */
  const BUS_BUFFER_SIZE: nat := 10

  /** Reader counts are 16-bit and wrap. */
  const COUNT_MODULUS: nat := 0x1_0000

  /** The messages of a history that were published to one topic. */
  function OnTopic<M>(history: seq<(string, M)>, topic: string): seq<M> {
    if history == [] then []
    else
      var last := history[|history| - 1];
      var before := OnTopic(history[..|history| - 1], topic);
      if last.0 == topic then before + [last.1] else before
  }

  lemma OnTopicSnoc<M>(history: seq<(string, M)>, topic: string, published: string, message: M)
    ensures OnTopic(history + [(published, message)], topic) ==
      if published == topic then OnTopic(history, topic) + [message] else OnTopic(history, topic)
  {
    assert (history + [(published, message)])[..|history|] == history;
  }

  // ---- what a bus has seen -------------------------------------------------------------

  /** The steps that matter to waiting tasks: a poll is recorded if it left its waker. */
  datatype Event<M> =
    | Subscribed(reader: TopicReader<M>)
    | Pended(reader: TopicReader<M>, waker: nat)
    | Published(topic: string)
    | Dropped(reader: TopicReader<M>)

  datatype Waiter<M> = Waiter(reader: TopicReader<M>, waker: nat)

  ghost function LiveAfter<M>(live: set<TopicReader<M>>, e: Event<M>): set<TopicReader<M>> {
    if e.Subscribed? then live + {e.reader} else if e.Dropped? then live - {e.reader} else live
  }

  /** The readers that subscribed and were not dropped. */
  ghost function Live<M>(trace: seq<Event<M>>): set<TopicReader<M>> {
    if trace == [] then {} else LiveAfter(Live(trace[..|trace| - 1]), trace[|trace| - 1])
  }

  /** What one step does to the polls pending on a topic; `live` are the readers after it. */
  ghost function WaitingAfter<M>(waiting: seq<Waiter<M>>, e: Event<M>, live: set<TopicReader<M>>, topic: string): seq<Waiter<M>> {
    if e.Pended? && e.reader.topic == topic then waiting + [Waiter(e.reader, e.waker)]
    else if e.Published? && e.topic == topic then []
    else if e.Dropped? && e.reader.topic == topic && ReadersOn(live, topic) == {} then []
    else waiting
  }

  /** The polls pending on a topic since its last publication, unless its last reader left. */
  ghost function Waiting<M>(trace: seq<Event<M>>, topic: string): seq<Waiter<M>> {
    if trace == [] then []
    else WaitingAfter(Waiting(trace[..|trace| - 1], topic), trace[|trace| - 1], Live(trace), topic)
  }

  ghost function Wakers<M>(ws: seq<Waiter<M>>): (r: seq<nat>)
    ensures |r| == |ws| && forall i :: 0 <= i < |ws| ==> r[i] == ws[i].waker
  {
    seq(|ws|, i requires 0 <= i < |ws| => ws[i].waker)
  }

  ghost predicate Asleep<M>(trace: seq<Event<M>>, r: TopicReader<M>) {
    exists k :: 0 <= k < |Waiting(trace, r.topic)| && Waiting(trace, r.topic)[k].reader == r
  }

  lemma TraceSnoc<M>(trace: seq<Event<M>>, e: Event<M>)
    ensures Live(trace + [e]) == LiveAfter(Live(trace), e)
  {
    assert (trace + [e])[..|trace|] == trace;
  }

  lemma WaitingSnoc<M>(trace: seq<Event<M>>, e: Event<M>, topic: string)
    ensures Waiting(trace + [e], topic) == WaitingAfter(Waiting(trace, topic), e, Live(trace + [e]), topic)
  {
    assert (trace + [e])[..|trace|] == trace;
  }

  /** After a step a reader sleeps if its poll is the step, or if it slept and the step did not wake it. */
  lemma AsleepSnoc<M>(trace: seq<Event<M>>, e: Event<M>, r: TopicReader<M>)
    ensures Asleep(trace + [e], r) ==> e != Published(r.topic) && ((e.Pended? && e.reader == r) || Asleep(trace, r))
  {
    hide Live, Waiting, ReadersOn;
    WaitingSnoc(trace, e, r.topic);
    if Asleep(trace + [e], r) {
      var ws := Waiting(trace + [e], r.topic);
      var k :| 0 <= k < |ws| && ws[k].reader == r;
      assert k < |Waiting(trace, r.topic)| ==> Waiting(trace, r.topic)[k] == ws[k];
    }
  }

  lemma {:induction false} StaysLive<M>(trace: seq<Event<M>>, i: nat, j: nat, r: TopicReader<M>)
    requires i <= j <= |trace| && r in Live(trace[..i])
    requires forall k :: i <= k < j ==> trace[k] != Dropped(r)
    ensures r in Live(trace[..j])
  {
    hide Live;
    if i < j {
      StaysLive(trace, i, j - 1, r);
      assert trace[..j] == trace[..j - 1] + [trace[j - 1]];
      TraceSnoc(trace[..j - 1], trace[j - 1]);
    }
  }

  /**
   Over every interleaving of bus steps, the waker of a pending poll waits for the next publication on its topic as
   long as the reader lives.
   */
  lemma {:induction false} NextPublicationWakes<M>(trace: seq<Event<M>>, i: nat, j: nat, r: TopicReader<M>, waker: nat)
    requires i < j <= |trace| && trace[i] == Pended(r, waker) && r in Live(trace[..i])
    requires forall k :: i < k < j ==> trace[k] != Dropped(r) && trace[k] != Published(r.topic)
    ensures Waiter(r, waker) in Waiting(trace[..j], r.topic) && waker in Wakers(Waiting(trace[..j], r.topic))
  {
    hide Live, Waiting, ReadersOn;
    assert trace[..j] == trace[..j - 1] + [trace[j - 1]];
    WaitingSnoc(trace[..j - 1], trace[j - 1], r.topic);
    if j > i + 1 {
      NextPublicationWakes(trace, i, j - 1, r, waker);
      StaysLive(trace, i, j, r);
      OtherReader(Live(trace[..j]), r);
      var e := trace[j - 1];
      assert !(e.Published? && e.topic == r.topic) by { assert e != Published(r.topic); }
      assert Waiting(trace[..j - 1], r.topic) <= Waiting(trace[..j], r.topic);
    }
    var ws := Waiting(trace[..j], r.topic);
    assert j == i + 1 ==> ws[|ws| - 1] == Waiter(r, waker);
    var k :| 0 <= k < |ws| && ws[k] == Waiter(r, waker);
    assert Wakers(ws)[k] == waker;
  }

  /** And whoever a publication wakes had a poll pending since the last one on that topic. */
  lemma {:induction false} WokenWasPending<M>(trace: seq<Event<M>>, topic: string, x: Waiter<M>) returns (i: nat)
    requires x in Waiting(trace, topic)
    ensures i < |trace| && trace[i] == Pended(x.reader, x.waker) && x.reader.topic == topic
    ensures forall k :: i < k < |trace| ==> trace[k] != Published(topic)
  {
    hide Live, ReadersOn;
    var n := |trace| - 1;
    if x in Waiting(trace[..n], topic) && trace[n] != Published(topic) {
      i := WokenWasPending(trace[..n], topic, x);
      assert trace[i] == trace[..n][i];
      forall k | i < k < |trace| ensures trace[k] != Published(topic) {
        assert k < n ==> trace[k] == trace[..n][k];
      }
    } else {
      i := n;
    }
  }

  // ---- topics and readers --------------------------------------------------------------

  /** One topic: the messages broadcast on it, the number of its readers, and the tasks waiting on it. */
  class TopicFabric<M> {
    const topic: string
    var log: seq<M>
    var numReaders: nat
    var wakers: seq<nat>

    constructor (topic: string)
      ensures this.topic == topic && log == [] && numReaders == 0 && wakers == []
    {
      this.topic, log, numReaders, wakers := topic, [], 0, [];
    }

    /** A reader positioned after the last message. */
    method NewReader(ghost start: nat) returns (r: TopicReader<M>)
      modifies this`numReaders
      ensures fresh(r) && r.topic == topic && r.fabric == this && r.start == start && r.received == []
      ensures r.Valid() && r.Queue() == [] && r.pos == |log|
      ensures numReaders == (old(numReaders) + 1) % COUNT_MODULUS
    {
      r := new TopicReader(topic, this, start);
      numReaders := (numReaders + 1) % COUNT_MODULUS;
    }

    /** Broadcasts a message and wakes every waiting task. */
    method WriteMessage(message: M) returns (woken: seq<nat>)
      modifies this
      ensures log == old(log) + [message] && numReaders == old(numReaders)
      ensures wakers == [] && woken == old(wakers)
    {
      log := log + [message];
      woken := wakers;
      wakers := [];
    }
  }

  /** A subscription: a cursor into the topic's messages and at most one peeked message. */
  class TopicReader<M> {
    const topic: string
    const fabric: TopicFabric<M>
    var pos: nat
    var buffered: Option<M>
    /** How many messages the topic had seen at subscription, and those delivered since. */
    ghost var start: nat
    ghost var received: seq<M>

    constructor (topic: string, fabric: TopicFabric<M>, ghost start: nat)
      ensures this.topic == topic && this.fabric == fabric && pos == |fabric.log| && buffered == None
      ensures this.start == start && received == []
    {
      this.topic, this.fabric, pos, buffered := topic, fabric, |fabric.log|, None;
      this.start, received := start, [];
    }

    ghost predicate Valid()
      reads this`pos, fabric`log
    {
      pos <= |fabric.log|
    }

    /** What the reader has yet to deliver. */
    ghost function Queue(): seq<M>
      requires Valid()
      reads this`pos, this`buffered, fabric`log
    {
      (if buffered.Some? then [buffered.value] else []) + fabric.log[pos..]
    }

    /** A non-blocking receive from the underlying bus. */
    method TryRecv() returns (m: Option<M>)
      requires Valid()
      modifies this`pos
      ensures Valid()
      ensures old(fabric.log[pos..]) == [] ==> m == None && pos == old(pos)
      ensures old(fabric.log[pos..]) != [] ==> m == Some(old(fabric.log[pos])) && pos == old(pos) + 1
    {
      if pos < |fabric.log| {
        m := Some(fabric.log[pos]);
        pos := pos + 1;
      } else {
        m := None;
      }
    }

    /** Whether a message waits; peeking loses nothing. */
    method HasNext() returns (r: bool)
      requires Valid()
      modifies this`pos, this`buffered
      ensures Valid() && Queue() == old(Queue()) && r == (Queue() != []) && pos >= old(pos)
    {
      if buffered.Some? {
        return true;
      }
      var m := TryRecv();
      if m.Some? {
        buffered := m;
        r := true;
      } else {
        r := false;
      }
    }

    /** Delivers the head of the queue, or leaves a waker. */
    method PollBus(waker: nat) returns (p: Poll<M>)
      requires Valid()
      modifies this`pos, this`buffered, this`received, fabric`wakers
      ensures Valid() && pos >= old(pos)
      ensures old(Queue()) == [] ==>
        && p == Pending && Queue() == [] && received == old(received)
        && fabric.wakers == old(fabric.wakers) + [waker]
      ensures old(Queue()) != [] ==>
        && p == Ready(old(Queue())[0]) && Queue() == old(Queue())[1..] && received == old(received) + [old(Queue())[0]]
        && fabric.wakers == old(fabric.wakers)
    {
      ghost var queue := Queue();
      if buffered.Some? {
        p := Ready(buffered.value);
        buffered := None;
        received := received + [p.message];
        assert Queue() == queue[1..];
        return;
      }
      var m := TryRecv();
      if m.Some? {
        p := Ready(m.value);
        received := received + [p.message];
        assert Queue() == queue[1..];
      } else {
        fabric.wakers := fabric.wakers + [waker];
        p := Pending;
      }
    }
  }

  /** What a reader received and still queues is what was published from its start on. */
  ghost predicate Synced<M>(published: seq<M>, start: nat, received: seq<M>, queue: seq<M>) {
    start <= |published| && received + queue == published[start..]
  }

  lemma SyncedPush<M>(published: seq<M>, start: nat, received: seq<M>, queue: seq<M>, message: M)
    requires Synced(published, start, received, queue)
    ensures Synced(published + [message], start, received, queue + [message])
  {
    assert received + (queue + [message]) == received + queue + [message];
    assert (published + [message])[start..] == published[start..] + [message];
  }

  lemma SyncedPop<M>(published: seq<M>, start: nat, received: seq<M>, queue: seq<M>)
    requires Synced(published, start, received, queue) && queue != []
    ensures Synced(published, start, received + [queue[0]], queue[1..])
  {
    assert received + [queue[0]] + queue[1..] == received + queue;
  }

  ghost function ReadersOn<M>(readers: set<TopicReader<M>>, topic: string): set<TopicReader<M>> {
    set r | r in readers && r.topic == topic
  }

  class SystemBus<M> {
    var mesh: map<string, TopicFabric<M>>
    /** The live readers and every publication, dropped ones included. */
    ghost var readers: set<TopicReader<M>>
    ghost var history: seq<(string, M)>
    /** Every subscription, pending poll, publication and drop. */
    ghost var trace: seq<Event<M>>

    /** A topic is registered iff it has a live reader, and it counts them. */
    ghost predicate Counted(topic: string)
      reads this, mesh.Values
    {
      && (topic in mesh <==> ReadersOn(readers, topic) != {})
      && (topic in mesh ==>
          mesh[topic].topic == topic && mesh[topic].numReaders == |ReadersOn(readers, topic)| < COUNT_MODULUS)
    }

    ghost predicate Attached(r: TopicReader<M>)
      reads this`mesh, r`pos, r.fabric`log
    {
      r.topic in mesh && mesh[r.topic] == r.fabric && r.Valid()
    }

    /** Delivered and queued messages are exactly those published since the subscription, in order. */
    ghost predicate InSync(r: TopicReader<M>)
      requires r.Valid()
      reads this`history, this`trace, r, r.fabric`log
    {
      && Synced(OnTopic(history, r.topic), r.start, r.received, r.Queue())
      && |r.fabric.log| - r.pos <= BUS_BUFFER_SIZE
      && (Asleep(trace, r) ==> r.Queue() == [])
    }

    /** The topic's wakers are those of the polls pending on it. */
    ghost predicate Tracked(topic: string)
      reads this, mesh.Values
    {
      Wakers(Waiting(trace, topic)) == if topic in mesh then mesh[topic].wakers else []
    }

    ghost predicate Valid()
      reads this, readers, mesh.Values, set r | r in readers :: r.fabric
    {
      && readers == Live(trace)
      && (forall t :: Counted(t) && Tracked(t))
      && (forall r :: r in readers ==> Attached(r) && InSync(r))
    }

    constructor ()
      ensures Valid() && mesh == map[] && readers == {} && history == [] && trace == []
    {
      mesh, readers, history, trace := map[], {}, [], [];
    }

    /** No reader of the topic lags a full buffer behind. */
    ghost predicate Room(topic: string)
      reads this, readers, set r | r in readers :: r.fabric
    {
      forall r :: r in readers && r.topic == topic ==> |r.fabric.log| - r.pos < BUS_BUFFER_SIZE
    }

    /** Publishing on a topic with no readers is a no-op; on others it blocks until there is room. */
    method Publish(topic: string, message: M) returns (woken: seq<nat>)
      requires Valid() && Room(topic)
      modifies this`history, this`trace, if topic in mesh then {mesh[topic]} else {}
      ensures Valid() && mesh == old(mesh) && readers == old(readers) && history == old(history) + [(topic, message)]
      ensures forall r :: r in readers ==>
        r.Queue() == if r.topic == topic then old(r.Queue()) + [message] else old(r.Queue())
      ensures trace == old(trace) + [Published(topic)] && woken == Wakers(Waiting(old(trace), topic))
    {
      hide OnTopic, ReadersOn, Synced, Live, Waiting, Wakers, Asleep;
      assert Tracked(topic);
      history := history + [(topic, message)];
      trace := trace + [Published(topic)];
      TraceSnoc(old(trace), Published(topic));
      woken := [];
      if topic in mesh {
        woken := mesh[topic].WriteMessage(message);
      }
      forall t ensures Counted(t) && Tracked(t) {
        assert old(Counted(t)) && old(Tracked(t));
        WaitingSnoc(old(trace), Published(topic), t);
      }
      forall r | r in readers
        ensures Attached(r) && InSync(r)
        ensures r.Queue() == if r.topic == topic then old(r.Queue()) + [message] else old(r.Queue())
      {
        assert old(Attached(r)) && old(InSync(r)) && old(Counted(r.topic));
        OnTopicSnoc(old(history), r.topic, topic, message);
        AsleepSnoc(old(trace), Published(topic), r);
        if r.topic == topic {
          SyncedPush(OnTopic(old(history), topic), r.start, r.received, old(r.Queue()), message);
          assert r.fabric.log[r.pos..] == old(r.fabric.log)[r.pos..] + [message];
          assert r.Queue() == old(r.Queue()) + [message];
        } else if topic in mesh {
          assert old(Counted(topic));
          assert r.fabric != mesh[topic];
        }
      }
    }

    /** Registers a topic that is not yet in the mesh. */
    method Register(topic: string)
      modifies this`mesh
      ensures topic in old(mesh) ==> mesh == old(mesh)
      ensures topic !in old(mesh) ==>
        && topic in mesh && mesh == old(mesh)[topic := mesh[topic]] && fresh(mesh[topic]) && mesh[topic].topic == topic
        && mesh[topic].log == [] && mesh[topic].numReaders == 0 && mesh[topic].wakers == []
    {
      if topic !in mesh {
        var fabric := new TopicFabric(topic);
        mesh := mesh[topic := fabric];
      }
    }

    /** Subscribing registers the topic if need be; the new reader sees what is published from now on. */
    method Subscribe(topic: string) returns (r: TopicReader<M>)
      requires Valid() && |ReadersOn(readers, topic)| + 1 < COUNT_MODULUS
      modifies this`mesh, this`readers, this`trace, (if topic in mesh then {mesh[topic]} else {})`numReaders
      ensures Valid() && history == old(history) && fresh(r) && readers == old(readers) + {r}
      ensures r.topic == topic && r.start == |OnTopic(history, topic)| && r.received == [] && r.Queue() == []
      ensures forall s :: s in old(readers) ==> s.Queue() == old(s.Queue())
      ensures trace == old(trace) + [Subscribed(r)]
    {
      hide OnTopic, ReadersOn, Synced, Live, Waiting, Wakers, Asleep;
      assert Counted(topic) && Tracked(topic);
      Register(topic);
      r := mesh[topic].NewReader(|OnTopic(history, topic)|);
      readers := readers + {r};
      trace := trace + [Subscribed(r)];
      TraceSnoc(old(trace), Subscribed(r));
      CountReader(old(readers), r, topic);
      forall t ensures Counted(t) && Tracked(t) {
        assert old(Counted(t)) && old(Tracked(t));
        WaitingSnoc(old(trace), Subscribed(r), t);
        if t == topic {
          OtherReader(readers, r);
        } else if t in mesh {
          assert mesh[t] != mesh[topic];
        }
      }
      SyncedEmpty(OnTopic(history, topic));
      forall s | s in old(readers) ensures Attached(s) && InSync(s) && s.Queue() == old(s.Queue()) {
        assert old(Attached(s)) && old(InSync(s));
        AsleepSnoc(old(trace), Subscribed(r), s);
      }
    }

    /** A client peeks at its reader. */
    method HasNext(r: TopicReader<M>) returns (b: bool)
      requires Valid() && r in readers
      modifies r`pos, r`buffered
      ensures Valid() && b == (r.Queue() != [])
      ensures forall s :: s in readers ==> s.Queue() == old(s.Queue()) && s.received == old(s.received)
    {
      hide OnTopic, ReadersOn, Synced, Live, Waiting, Wakers, Asleep;
      assert Attached(r) && InSync(r);
      b := r.HasNext();
      forall t ensures Counted(t) && Tracked(t) {
        assert old(Counted(t)) && old(Tracked(t));
      }
      forall s | s in readers ensures Attached(s) && InSync(s) && s.Queue() == old(s.Queue()) {
        assert old(Attached(s)) && old(InSync(s));
      }
    }

    /** A client polls its reader: the oldest undelivered message is delivered, to this reader only. */
    method PollNext(r: TopicReader<M>, waker: nat) returns (p: Poll<M>)
      requires Valid() && r in readers
      modifies this`trace, r`pos, r`buffered, r`received, r.fabric`wakers
      ensures Valid()
      ensures old(r.Queue()) == [] ==> p == Pending && r.Queue() == [] && r.received == old(r.received)
      ensures trace == if old(r.Queue()) == [] then old(trace) + [Pended(r, waker)] else old(trace)
      ensures old(r.Queue()) != [] ==>
        p == Ready(old(r.Queue())[0]) && r.Queue() == old(r.Queue())[1..] && r.received == old(r.received) + [p.message]
      ensures forall s :: s in readers && s != r ==> s.Queue() == old(s.Queue()) && s.received == old(s.received)
    {
      hide OnTopic, ReadersOn, Synced, Live, Waiting, Wakers, Asleep;
      assert Attached(r) && InSync(r) && Counted(r.topic);
      ghost var queue := r.Queue();
      if queue != [] {
        SyncedPop(OnTopic(history, r.topic), r.start, r.received, queue);
      }
      p := r.PollBus(waker);
      if queue == [] {
        trace := trace + [Pended(r, waker)];
        TraceSnoc(old(trace), Pended(r, waker));
      }
      forall t ensures Counted(t) && Tracked(t) {
        assert old(Counted(t)) && old(Tracked(t));
        WaitingSnoc(old(trace), Pended(r, waker), t);
        WakersSnoc(Waiting(old(trace), t), Waiter(r, waker));
      }
      forall s | s in readers ensures Attached(s) && InSync(s) && (s != r ==> s.Queue() == old(s.Queue())) {
        assert old(Attached(s)) && old(InSync(s));
        AsleepSnoc(old(trace), Pended(r, waker), s);
      }
    }

    /** Dropping the last reader of a topic deregisters it. */
    method Drop(r: TopicReader<M>)
      requires Valid() && r in readers
      modifies this`mesh, this`readers, this`trace, r.fabric`numReaders
      ensures Valid() && readers == old(readers) - {r} && history == old(history)
      ensures forall s :: s in readers ==> s.Queue() == old(s.Queue()) && s.received == old(s.received)
      ensures trace == old(trace) + [Dropped(r)]
    {
      hide OnTopic, ReadersOn, Synced, Live, Waiting, Wakers, Asleep;
      assert Attached(r) && Counted(r.topic);
      readers := readers - {r};
      trace := trace + [Dropped(r)];
      TraceSnoc(old(trace), Dropped(r));
      CountReader(readers, r, r.topic);
      assert readers + {r} == old(readers);
      var fabric := r.fabric;
      var prev := fabric.numReaders;
      fabric.numReaders := (prev + COUNT_MODULUS - 1) % COUNT_MODULUS;
      if prev == 1 {
        if fabric.numReaders > 0 {
          return;
        }
        mesh := mesh - {r.topic};
      }
      forall t ensures Counted(t) && Tracked(t) {
        assert old(Counted(t)) && old(Tracked(t));
        WaitingSnoc(old(trace), Dropped(r), t);
        NoWakers<M>();
      }
      forall s | s in readers ensures Attached(s) && InSync(s) && s.Queue() == old(s.Queue()) {
        assert old(Attached(s)) && old(InSync(s));
        OtherReader(readers, s);
        AsleepSnoc(old(trace), Dropped(r), s);
      }
    }

    method NumListeners(topic: string) returns (n: nat)
      requires Valid()
      ensures n == |ReadersOn(readers, topic)|
    {
      assert Counted(topic);
      n := if topic in mesh then mesh[topic].numReaders else 0;
    }

    method HasListeners(topic: string) returns (b: bool)
      requires Valid()
      ensures b <==> exists r :: r in readers && r.topic == topic
    {
      assert Counted(topic);
      b := topic in mesh;
      if b {
        assert ReadersOn(readers, topic) != {};
      }
    }
  }

  lemma NoWakers<M>()
    ensures Wakers<M>([]) == []
  {
  }

  lemma WakersSnoc<M>(ws: seq<Waiter<M>>, x: Waiter<M>)
    ensures Wakers(ws + [x]) == Wakers(ws) + [x.waker]
  {
  }

  /** A topic with a live reader counts it. */
  lemma OtherReader<M>(readers: set<TopicReader<M>>, s: TopicReader<M>)
    requires s in readers
    ensures s in ReadersOn(readers, s.topic) && |ReadersOn(readers, s.topic)| > 0
  {
  }

  lemma SyncedEmpty<M>(published: seq<M>)
    ensures Synced(published, |published|, [], [])
  {
  }

  lemma CountReader<M>(readers: set<TopicReader<M>>, r: TopicReader<M>, topic: string)
    requires r !in readers && r.topic == topic
    ensures |ReadersOn(readers + {r}, topic)| == |ReadersOn(readers, topic)| + 1
    ensures forall t :: t != topic ==> ReadersOn(readers + {r}, t) == ReadersOn(readers, t)
  {
    assert ReadersOn(readers + {r}, topic) == ReadersOn(readers, topic) + {r};
  }
}
