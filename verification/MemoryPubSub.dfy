/** The transport's objects (internal/core/network/memory.go): channels with 64 slots that every publication is
    pushed into in place. Each method is proved to do what module PubSub says on values; sends go only into open
    channels, and none is closed twice. */
module MemoryPubSub {
  import opened PubSub

  class Channel {
    var queue: seq<Message>
    var closed: bool

    constructor ()
      ensures queue == [] && !closed
    {
      queue, closed := [], false;
    }

    /** A send in a select with a default case. Sending on a closed channel would panic. */
    method TrySend(m: Message)
      requires !closed
      modifies this`queue
      ensures queue == Sent(old(queue), m)
      ensures queue == old(queue) + if |old(queue)| < 64 then [m] else []
    {
      if |queue| < QUEUE_SIZE {
        queue := queue + [m];
      }
    }

    /** Closing a closed channel would panic. What is queued can still be received. */
    method Close()
      requires !closed
      modifies this`closed
      ensures closed
    {
      closed := true;
    }

    /** The subscriber's receive; no message stands for waiting, or for the end once closed. */
    method Receive() returns (m: seq<Message>)
      modifies this`queue
      ensures if old(queue) == [] then m == [] && queue == [] else m == [old(queue)[0]] && queue == old(queue)[1..]
    {
      if queue == [] { return []; }
      m := [queue[0]];
      queue := queue[1..];
    }
  }

  function Tables(subs: map<string, map<nat, Channel>>): map<string, set<nat>> {
    map topic | topic in subs :: subs[topic].Keys
  }

  ghost function Queues(made: map<nat, Channel>): map<nat, seq<Message>>
    reads made.Values`queue
  {
    map id | id in made :: made[id].queue
  }

  ghost function Closed(made: map<nat, Channel>): set<nat>
    reads made.Values`closed
  {
    set id | id in made && made[id].closed
  }

  /** No two subscriptions share a channel. */
  ghost predicate Distinct(made: map<nat, Channel>) {
    forall i, j | i in made && j in made && i != j :: made[i] != made[j]
  }

  /** What the tables hold was made under that id. */
  ghost predicate Listed(subs: map<string, map<nat, Channel>>, made: map<nat, Channel>) {
    forall topic | topic in subs :: forall id | id in subs[topic] :: id in made && made[id] == subs[topic][id]
  }

  ghost predicate Numbered(made: map<nat, Channel>, nextID: nat) {
    forall id: nat :: id in made <==> id < nextID
  }

  lemma ClosedIs(made: map<nat, Channel>, closed: set<nat>)
    requires closed <= made.Keys && forall id | id in made :: made[id].closed <==> id in closed
    ensures Closed(made) == closed
  {
  }

  lemma TablesPut(subs: map<string, map<nat, Channel>>, topic: string, table: map<nat, Channel>)
    ensures Tables(subs[topic := table]) == Tables(subs)[topic := table.Keys]
  {
  }

  lemma TablesDrop(subs: map<string, map<nat, Channel>>, topic: string, table: map<nat, Channel>)
    ensures Tables(subs[topic := table] - {topic}) == Tables(subs) - {topic}
  {
  }

  lemma ChannelMade(made: map<nat, Channel>, nextID: nat, subs: map<string, map<nat, Channel>>, topic: string,
                    table: map<nat, Channel>, ch: Channel)
    requires Numbered(made, nextID) && Distinct(made) && Listed(subs, made)
    requires ch !in made.Values && ch.queue == [] && !ch.closed
    requires table == (if topic in subs then subs[topic] else map[])[nextID := ch]
    ensures var made' := made[nextID := ch];
            && Numbered(made', nextID + 1) && Distinct(made') && Listed(subs[topic := table], made')
            && Queues(made') == Queues(made)[nextID := []] && Closed(made') == Closed(made)
    ensures table.Keys == (if topic in subs then Tables(subs)[topic] else {}) + {nextID}
  {
    assert Closed(made[nextID := ch]) == Closed(made);
  }

  lemma ChannelRemoved(subs: map<string, map<nat, Channel>>, made: map<nat, Channel>, topic: string,
                       table: map<nat, Channel>, rest: map<nat, Channel>, id: nat)
    requires topic in subs && table == subs[topic] && rest == table - {id} && Listed(subs, made)
    ensures rest.Keys == Tables(subs)[topic] - {id} && (|rest| == 0 <==> rest.Keys == {})
    ensures Listed(subs[topic := rest], made) && Listed(subs[topic := rest] - {topic}, made)
  {
  }

  /** What is registered is open, and listed under its topic. */
  lemma RegisteredIsOpen(subs: map<string, map<nat, Channel>>, made: map<nat, Channel>, h: Hub, topic: string,
          table: map<nat, Channel>)
    requires Inv(h) && h.subs == Tables(subs) && h.closed == Closed(made) && Listed(subs, made)
    requires table == if topic in subs then subs[topic] else map[]
    ensures topic in subs ==> |table| != 0
    ensures forall id | id in table :: id in made && made[id] == table[id] && !made[id].closed
    ensures forall id :: Registered(h, topic, id) <==> id in table
  {
    if topic in subs {
      assert h.subs[topic] == table.Keys != {};
      forall id | id in table ensures id in made && made[id] == table[id] && !made[id].closed {
        assert Registered(h, topic, id);
      }
    }
  }

  lemma PublishedQueues(h: Hub, topic: string, payload: seq<bv8>, ids: set<nat>, queues: map<nat, seq<Message>>)
    requires forall id :: Registered(h, topic, id) <==> id in ids
    requires queues.Keys == h.queues.Keys
    requires forall id | id in queues ::
               queues[id] == if id in ids then Sent(h.queues[id], Message.Message(topic, payload)) else h.queues[id]
    ensures Published(h, topic, payload) == h.(queues := queues)
  {
    assert Published(h, topic, payload).queues == queues;
  }

  class MemoryPubSub {
    var nextID: nat
    var subs: map<string, map<nat, Channel>>
    /** Every channel ever made, also the cancelled ones, by the id of its subscription. */
    ghost var made: map<nat, Channel>

    ghost predicate Valid()
      reads this
    {
      Numbered(made, nextID) && Distinct(made) && Listed(subs, made)
    }

    ghost function State(): Hub
      reads this, made.Values
    {
      Hub(nextID, Tables(subs), Queues(made), Closed(made))
    }

    constructor ()
      ensures Valid() && State() == BLANK_HUB && made == map[]
    {
      nextID, subs, made := 0, map[], map[];
    }

    method Publish(topic: string, payload: seq<bv8>)
      requires Valid() && Inv(State())
      modifies made.Values
      ensures Valid() && State() == Published(old(State()), topic, payload)
    {
      hide Inv, Registered, Published, Sent, Numbered, Listed, Tables;
      var channels := if topic in subs then subs[topic] else map[];
      var todo := channels.Keys;
      ghost var h := State();
      RegisteredIsOpen(subs, made, h, topic, channels);
      while todo != {}
        invariant todo <= channels.Keys
        invariant forall id | id in made ::
          made[id].queue == if id in channels && id !in todo
                            then Sent(h.queues[id], Message.Message(topic, payload)) else h.queues[id]
        invariant forall id | id in made :: made[id].closed <==> id in h.closed
        decreases |todo|
      {
        var id :| id in todo;
        todo := todo - {id};
        channels[id].TrySend(Message.Message(topic, payload));
      }
      ClosedIs(made, h.closed);
      PublishedQueues(h, topic, payload, channels.Keys, Queues(made));
    }

    method Subscribe(topic: string) returns (ch: Channel, id: nat)
      requires Valid() && Inv(State())
      modifies this
      ensures Valid() && State() == Subscribed(old(State()), topic)
      ensures id == old(nextID) && made == old(made)[id := ch] && fresh(ch)
    {
      hide Inv, Numbered, Listed, Distinct, Queues, Closed;
      ch := new Channel();
      var table: map<nat, Channel> := (if topic in subs then subs[topic] else map[])[nextID := ch];
      ChannelMade(made, nextID, subs, topic, table, ch);
      TablesPut(subs, topic, table);
      id := nextID;
      nextID := nextID + 1;
      subs := subs[topic := table];
      made := made[id := ch];
    }

    /** Closes the channel of a subscription. */
    method CloseChannel(sub: Channel, ghost id: nat)
      requires Distinct(made) && id in made && made[id] == sub && !sub.closed
      modifies sub`closed
      ensures Closed(made) == old(Closed(made)) + {id}
      ensures Queues(made) == old(Queues(made))
    {
      hide Queues;
      ghost var before := Closed(made);
      sub.Close();
      ClosedIs(made, before + {id});
    }

    /** The cancel function that Subscribe gave out for this topic and id. */
    method Cancel(topic: string, id: nat)
      requires Valid() && Inv(State())
      modifies this`subs, made.Values
      ensures Valid() && State() == Cancelled(old(State()), topic, id) && made == old(made)
    {
      hide Inv, Numbered, Listed, Distinct, Tables, Queues, Closed, Registered;
      ghost var h := State();
      RegisteredIsOpen(subs, made, h, topic, if topic in subs then subs[topic] else map[]);
      if topic in subs {
        var subsByTopic: map<nat, Channel> := subs[topic];
        if id in subsByTopic {
          var sub := subsByTopic[id];
          var rest: map<nat, Channel> := subsByTopic - {id};
          ChannelRemoved(subs, made, topic, subsByTopic, rest, id);
          TablesPut(subs, topic, rest);
          TablesDrop(subs, topic, rest);
          subsByTopic := rest;
          subs := subs[topic := rest];
          CloseChannel(sub, id);
        }
        if |subsByTopic| == 0 {
          subs := subs - {topic};
        }
      }
    }
  }
}
