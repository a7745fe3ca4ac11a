/** The in-memory transport (internal/core/network/memory.go): topics, subscribers with bounded queues, and
    cancels that may be repeated or come late. */
module PubSub {

  const QUEUE_SIZE := 64

  datatype Message = Message(topic: string, payload: seq<bv8>)

  /** Subscribers by topic, and every queue ever made, by the id of its subscription. */
  datatype Hub = Hub(nextID: nat, subs: map<string, set<nat>>, queues: map<nat, seq<Message>>, closed: set<nat>)

  const BLANK_HUB := Hub(0, map[], map[], {})

  predicate Registered(h: Hub, topic: string, id: nat) {
    topic in h.subs && id in h.subs[topic]
  }

  function Queue(h: Hub, id: nat): seq<Message> {
    if id in h.queues then h.queues[id] else []
  }

  /** A send that does not block: a full queue drops the message. */
  function Sent(queue: seq<Message>, m: Message): seq<Message> {
    if |queue| < QUEUE_SIZE then queue + [m] else queue
  }

  function Published(h: Hub, topic: string, payload: seq<bv8>): Hub {
    h.(queues := map id | id in h.queues ::
         if Registered(h, topic, id) then Sent(h.queues[id], Message.Message(topic, payload)) else h.queues[id])
  }

  function Subscribed(h: Hub, topic: string): Hub {
    var others := if topic in h.subs then h.subs[topic] else {};
    Hub(h.nextID + 1, h.subs[topic := others + {h.nextID}], h.queues[h.nextID := []], h.closed)
  }

  /** Running the cancel function of a subscription. */
  function Cancelled(h: Hub, topic: string, id: nat): Hub {
    if !Registered(h, topic, id) then h
    else
      var rest := h.subs[topic] - {id};
      h.(subs := if rest == {} then h.subs - {topic} else h.subs[topic := rest], closed := h.closed + {id})
  }

  function Received(h: Hub, id: nat): Hub {
    if Queue(h, id) == [] then h else h.(queues := h.queues[id := h.queues[id][1..]])
  }

  datatype Op =
    | Publish(topic: string, payload: seq<bv8>)
    | Subscribe(topic: string)
    | Cancel(topic: string, id: nat)
    | Receive(id: nat)

  function After(h: Hub, op: Op): Hub {
    match op
    case Publish(topic, payload) => Published(h, topic, payload)
    case Subscribe(topic) => Subscribed(h, topic)
    case Cancel(topic, id) => Cancelled(h, topic, id)
    case Receive(id) => Received(h, id)
  }

  function Run(ops: seq<Op>): Hub {
    if ops == [] then BLANK_HUB else After(Run(ops[..|ops| - 1]), ops[|ops| - 1])
  }

  // ---------------------------------------------------------------------------
  // Who is subscribed
  // ---------------------------------------------------------------------------

  /** How many subscriptions were made, which is how they are numbered. */
  function Subscriptions(ops: seq<Op>): nat {
    if ops == [] then 0
    else Subscriptions(ops[..|ops| - 1]) + if ops[|ops| - 1].Subscribe? then 1 else 0
  }

  /** The subscription was made for this topic and its own cancel has not run since. */
  predicate Live(ops: seq<Op>, topic: string, id: nat) {
    ops != [] &&
    var before, op := ops[..|ops| - 1], ops[|ops| - 1];
    if op.Subscribe? && Subscriptions(before) == id then op.topic == topic
    else Live(before, topic, id) && op != Cancel(topic, id)
  }

  /** The tables hold no empty topic, ids are given out once, and what is registered is open. */
  ghost predicate Inv(h: Hub) {
    && (forall topic | topic in h.subs :: h.subs[topic] != {})
    && (forall id: nat :: id in h.queues <==> id < h.nextID)
    && (forall topic, id | Registered(h, topic, id) :: id in h.queues && id !in h.closed)
    && (forall t1, t2, id | Registered(h, t1, id) && Registered(h, t2, id) :: t1 == t2)
    && (forall id | id in h.queues :: |h.queues[id]| <= QUEUE_SIZE)
    && (forall id | id in h.closed :: id in h.queues)
  }

  lemma AfterKeeps(h: Hub, op: Op)
    requires Inv(h)
    ensures Inv(After(h, op))
  {
    var after := After(h, op);
    match op
    case Publish(topic, payload) =>
      assert forall t, id :: Registered(after, t, id) <==> Registered(h, t, id);
    case Subscribe(topic) =>
      assert forall t, id :: Registered(after, t, id) <==> Registered(h, t, id) || (t == topic && id == h.nextID);
    case Cancel(topic, id) =>
      CancelRemovesOne(h, topic, id);
    case Receive(id) =>
      assert forall t, id :: Registered(after, t, id) <==> Registered(h, t, id);
  }

  /** A cancel takes its own subscription off, and no other. */
  lemma CancelRemovesOne(h: Hub, topic: string, id: nat)
    ensures forall t, i ::
              Registered(Cancelled(h, topic, id), t, i) <==> Registered(h, t, i) && !(t == topic && i == id)
  {
    var after := Cancelled(h, topic, id);
    forall t, i ensures Registered(after, t, i) <==> Registered(h, t, i) && !(t == topic && i == id) {
      if Registered(h, topic, id) && h.subs[topic] - {id} == {} && Registered(h, t, i) && t == topic {
        assert i in h.subs[topic] - {id} || i == id;
      }
    }
  }

  lemma BlankKeeps()
    ensures Inv(BLANK_HUB)
  {
    assert forall topic, id :: !Registered(BLANK_HUB, topic, id);
  }

  lemma {:induction false} RunKeeps(ops: seq<Op>)
    ensures Inv(Run(ops)) && Run(ops).nextID == Subscriptions(ops)
  {
    if ops == [] {
      BlankKeeps();
    } else {
      RunKeeps(ops[..|ops| - 1]);
      AfterKeeps(Run(ops[..|ops| - 1]), ops[|ops| - 1]);
    }
  }

  /** The table of a topic holds exactly the live subscriptions, however often cancels are repeated and although a
      topic's table goes with its last subscriber and is made anew for the next one. */
  lemma {:induction false} RegisteredIsLive(ops: seq<Op>, topic: string, id: nat)
    ensures Registered(Run(ops), topic, id) <==> Live(ops, topic, id)
    ensures topic in Run(ops).subs ==> exists i :: Live(ops, topic, i)
  {
    RunKeeps(ops);
    LiveIsRegistered(ops, topic, id);
    if topic in Run(ops).subs {
      var i :| i in Run(ops).subs[topic];
      LiveIsRegistered(ops, topic, i);
    }
  }

  lemma {:induction false} LiveIsRegistered(ops: seq<Op>, topic: string, id: nat)
    ensures Registered(Run(ops), topic, id) <==> Live(ops, topic, id)
  {
    if ops != [] {
      var before, op := ops[..|ops| - 1], ops[|ops| - 1];
      RunKeeps(before);
      LiveIsRegistered(before, topic, id);
      if op.Cancel? {
        CancelRemovesOne(Run(before), op.topic, op.id);
      }
    }
  }

  /** A subscription once cancelled is never live again, whatever is subscribed later. */
  lemma {:induction false} CancelIsFinal(ops: seq<Op>, more: seq<Op>, topic: string, id: nat)
    requires id < Subscriptions(ops)
    ensures !Live(ops + [Cancel(topic, id)] + more, topic, id)
    ensures id < Subscriptions(ops + [Cancel(topic, id)] + more)
    decreases |more|
  {
    var cut := ops + [Cancel(topic, id)];
    if more == [] {
      assert cut + more == cut && cut[..|cut| - 1] == ops;
    } else {
      CancelIsFinal(ops, more[..|more| - 1], topic, id);
      assert (cut + more)[..|cut + more| - 1] == cut + more[..|more| - 1];
    }
  }

  // ---------------------------------------------------------------------------
  // What a subscriber gets
  // ---------------------------------------------------------------------------

  /** What the subscriber has received. */
  function Got(ops: seq<Op>, id: nat): seq<Message> {
    if ops == [] then []
    else
      var before, op := ops[..|ops| - 1], ops[|ops| - 1];
      Got(before, id) + if op == Receive(id) && Queue(Run(before), id) != [] then [Queue(Run(before), id)[0]] else []
  }

  /** What was published on the subscription's topic while it was live. */
  function Offered(ops: seq<Op>, id: nat): seq<Message> {
    if ops == [] then []
    else
      var before, op := ops[..|ops| - 1], ops[|ops| - 1];
      Offered(before, id)
      + if op.Publish? && Live(before, op.topic, id) then [Message.Message(op.topic, op.payload)] else []
  }

  /** Of these, the ones that found fewer than 64 messages queued. */
  function Kept(ops: seq<Op>, id: nat): seq<Message> {
    if ops == [] then []
    else
      var before, op := ops[..|ops| - 1], ops[|ops| - 1];
      Kept(before, id)
      + if op.Publish? && Live(before, op.topic, id) && |Queue(Run(before), id)| < QUEUE_SIZE
        then [Message.Message(op.topic, op.payload)] else []
  }

  /** How many found 64 messages queued. */
  function Lost(ops: seq<Op>, id: nat): nat {
    if ops == [] then 0
    else
      var before, op := ops[..|ops| - 1], ops[|ops| - 1];
      Lost(before, id)
      + if op.Publish? && Live(before, op.topic, id) && |Queue(Run(before), id)| == QUEUE_SIZE then 1 else 0
  }

  /** a is b with some elements left out. */
  predicate Subsequence<T(==)>(a: seq<T>, b: seq<T>) {
    if a == [] then true
    else if b == [] then false
    else
      || (a[|a| - 1] == b[|b| - 1] && Subsequence(a[..|a| - 1], b[..|b| - 1]))
      || Subsequence(a, b[..|b| - 1])
  }

  lemma QueueAfter(h: Hub, op: Op, id: nat)
    requires Inv(h)
    ensures Queue(After(h, op), id)
            == if op.Publish? && Registered(h, op.topic, id)
               then Sent(Queue(h, id), Message.Message(op.topic, op.payload))
               else if op == Receive(id) && Queue(h, id) != [] then Queue(h, id)[1..]
               else Queue(h, id)
  {
  }

  /** In every run: what was received and what is queued are together, in order, exactly the publications that
      found room. */
  lemma {:induction false} ReceivedThenQueued(ops: seq<Op>, id: nat)
    ensures Got(ops, id) + Queue(Run(ops), id) == Kept(ops, id)
  {
    if ops != [] {
      var before, op := ops[..|ops| - 1], ops[|ops| - 1];
      ReceivedThenQueued(before, id);
      RunKeeps(before);
      QueueAfter(Run(before), op, id);
      if op.Publish? {
        LiveIsRegistered(before, op.topic, id);
      }
      hide Inv, After, Queue, Registered, Live;
      Moved(Got(before, id), Queue(Run(before), id));
      assert Got(before, id) + [] == Got(before, id) && Kept(before, id) + [] == Kept(before, id);
    }
  }

  /** Receiving moves the head of the queue behind what was received. */
  lemma Moved<T(!new)>(got: seq<T>, queue: seq<T>)
    ensures queue != [] ==> got + [queue[0]] + queue[1..] == got + queue
    ensures forall m :: got + (queue + [m]) == got + queue + [m]
  {
  }

  /** So a subscriber receives a subsequence of what its topic carried; a message is lost only where 64 are
      queued, and all arrive exactly when that never happened. */
  lemma OnlyFullQueuesLose(ops: seq<Op>, id: nat)
    ensures Subsequence(Got(ops, id) + Queue(Run(ops), id), Offered(ops, id))
    ensures |Offered(ops, id)| == |Got(ops, id)| + |Queue(Run(ops), id)| + Lost(ops, id)
    ensures Got(ops, id) + Queue(Run(ops), id) == Offered(ops, id) <==> Lost(ops, id) == 0
  {
    ReceivedThenQueued(ops, id);
    KeptOfOffered(ops, id);
  }

  lemma {:induction false} KeptOfOffered(ops: seq<Op>, id: nat)
    ensures Subsequence(Kept(ops, id), Offered(ops, id))
    ensures |Offered(ops, id)| == |Kept(ops, id)| + Lost(ops, id)
    ensures Lost(ops, id) == 0 ==> Kept(ops, id) == Offered(ops, id)
  {
    if ops != [] {
      var before, op := ops[..|ops| - 1], ops[|ops| - 1];
      KeptOfOffered(before, id);
      RunKeeps(before);
      var kept, offered := Kept(before, id), Offered(before, id);
      assert kept + [] == kept && offered + [] == offered;
      assert |Queue(Run(before), id)| <= QUEUE_SIZE;
      if op.Publish? {
        var m := Message.Message(op.topic, op.payload);
        assert (kept + [m])[..|kept|] == kept && (offered + [m])[..|offered|] == offered;
      }
    }
  }
}
