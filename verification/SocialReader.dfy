/** Reading the topic logs (internal/social/manager.go, the record loop): records come in batches, some of them
    again and again; a cursor per topic says what was taken. At-least-once delivery is proved to come to the
    same as reading each log once, and the order between the two topics not to matter. */
module SocialReader {
  import opened Social

  /** The inbox and, per topic, the offset of the last record taken; offsets start at 1. */
  datatype Reader = Reader(inbox: Inbox, cursors: map<string, nat>)

  function Cursor(cursors: map<string, nat>, topic: string): nat {
    if topic in cursors then cursors[topic] else 0
  }

  function Delivered(me: Me, r: Reader, rec: Record): Reader {
    if rec.offset > Cursor(r.cursors, rec.topic)
    then Reader(Processed(me, r.inbox, rec.topic, rec.payload), r.cursors[rec.topic := rec.offset])
    else r
  }

  /** The record loop over a batch. */
  function Consumed(me: Me, r: Reader, batch: seq<Record>): Reader {
    if batch == [] then r
    else Delivered(me, Consumed(me, r, batch[..|batch| - 1]), batch[|batch| - 1])
  }

  // ---------------------------------------------------------------------------
  // What is taken of what is delivered
  // ---------------------------------------------------------------------------

  function Advanced(cursors: map<string, nat>, batch: seq<Record>): map<string, nat> {
    if batch == [] then cursors
    else
      var c, rec := Advanced(cursors, batch[..|batch| - 1]), batch[|batch| - 1];
      if rec.offset > Cursor(c, rec.topic) then c[rec.topic := rec.offset] else c
  }

  /** The delivered records that are news. */
  function Taken(cursors: map<string, nat>, batch: seq<Record>): seq<Record> {
    if batch == [] then []
    else
      var n := |batch| - 1;
      Taken(cursors, batch[..n])
      + if batch[n].offset > Cursor(Advanced(cursors, batch[..n]), batch[n].topic) then [batch[n]] else []
  }

  /** Processing each of the records once, in order. */
  function Folded(me: Me, s: Inbox, records: seq<Record>): Inbox {
    if records == [] then s
    else
      var rec := records[|records| - 1];
      Processed(me, Folded(me, s, records[..|records| - 1]), rec.topic, rec.payload)
  }

  /** The payloads of one topic, in order. */
  function Projected(records: seq<Record>, topic: string): seq<Payload> {
    if records == [] then []
    else
      var rec := records[|records| - 1];
      Projected(records[..|records| - 1], topic) + if rec.topic == topic then [rec.payload] else []
  }

  type Logs = map<string, seq<Payload>>

  function Log(logs: Logs, topic: string): seq<Payload> {
    if topic in logs then logs[topic] else []
  }

  /** Every record is what the topic's log holds at that offset. */
  predicate Genuine(logs: Logs, batch: seq<Record>) {
    forall rec | rec in batch ::
      1 <= rec.offset <= |Log(logs, rec.topic)| && rec.payload == Log(logs, rec.topic)[rec.offset - 1]
  }

  /** Batches made of windows: a record carries on after an earlier one of its topic, or its window starts no
      later than right after the cursor. Windows may overlap, repeat and interleave. */
  predicate Windows(cursors: map<string, nat>, batch: seq<Record>) {
    forall i | 0 <= i < |batch| ::
      || batch[i].offset <= Cursor(cursors, batch[i].topic) + 1
      || (exists j | 0 <= j < i :: batch[j].topic == batch[i].topic && batch[i].offset == batch[j].offset + 1)
  }

  /** No record is more than one past the cursor its topic has by then. */
  predicate GapFree(cursors: map<string, nat>, batch: seq<Record>) {
    batch == [] ||
    (GapFree(cursors, batch[..|batch| - 1])
     && batch[|batch| - 1].offset
        <= Cursor(Advanced(cursors, batch[..|batch| - 1]), batch[|batch| - 1].topic) + 1)
  }

  lemma {:induction false} WindowsAreGapFree(cursors: map<string, nat>, batch: seq<Record>)
    requires Windows(cursors, batch)
    ensures GapFree(cursors, batch)
  {
    if batch != [] {
      WindowsOfPrefix(cursors, batch);
      WindowsAreGapFree(cursors, batch[..|batch| - 1]);
    }
  }

  /** Cursors only go up, and end at or above every delivered offset. */
  lemma {:induction false} CursorsAdvance(cursors: map<string, nat>, batch: seq<Record>, topic: string)
    ensures Cursor(cursors, topic) <= Cursor(Advanced(cursors, batch), topic)
    ensures forall rec | rec in batch && rec.topic == topic :: rec.offset <= Cursor(Advanced(cursors, batch), topic)
  {
    if batch != [] {
      CursorsAdvance(cursors, batch[..|batch| - 1], topic);
      assert batch == batch[..|batch| - 1] + [batch[|batch| - 1]];
    }
  }

  lemma WindowsOfPrefix(cursors: map<string, nat>, batch: seq<Record>)
    requires batch != [] && Windows(cursors, batch)
    ensures Windows(cursors, batch[..|batch| - 1])
    ensures var last := batch[|batch| - 1];
            last.offset <= Cursor(Advanced(cursors, batch[..|batch| - 1]), last.topic) + 1
  {
    var n := |batch| - 1;
    var prefix := batch[..n];
    forall i | 0 <= i < n
      ensures || prefix[i].offset <= Cursor(cursors, prefix[i].topic) + 1
              || (exists j | 0 <= j < i ::
                    prefix[j].topic == prefix[i].topic && prefix[i].offset == prefix[j].offset + 1)
    {
      assert prefix[i] == batch[i];
      if batch[i].offset > Cursor(cursors, batch[i].topic) + 1 {
        var j :| 0 <= j < i && batch[j].topic == batch[i].topic && batch[i].offset == batch[j].offset + 1;
        assert prefix[j] == batch[j];
      }
    }
    CursorsAdvance(cursors, prefix, batch[n].topic);
    if batch[n].offset > Cursor(cursors, batch[n].topic) + 1 {
      var j :| 0 <= j < n && batch[j].topic == batch[n].topic && batch[n].offset == batch[j].offset + 1;
      assert prefix[j] == batch[j];
      assert batch[j] in prefix;
    }
  }

  /** The records taken fold to the state the loop reaches. */
  lemma {:induction false} ConsumedIsFolded(me: Me, r: Reader, batch: seq<Record>)
    ensures Consumed(me, r, batch) == Reader(Folded(me, r.inbox, Taken(r.cursors, batch)), Advanced(r.cursors, batch))
  {
    if batch != [] {
      var n := |batch| - 1;
      ConsumedIsFolded(me, r, batch[..n]);
      var taken := Taken(r.cursors, batch[..n]);
      assert (taken + [batch[n]])[..|taken|] == taken;
      assert taken + [] == taken;
    }
  }

  /** Of each topic exactly the stretch of the log between the old and the new cursor is taken: nothing twice,
      nothing left out, nothing out of order. */
  lemma {:induction false} TakenIsTheLog(logs: Logs, cursors: map<string, nat>, batch: seq<Record>, topic: string)
    requires Genuine(logs, batch) && GapFree(cursors, batch) && Cursor(cursors, topic) <= |Log(logs, topic)|
    ensures Cursor(cursors, topic) <= Cursor(Advanced(cursors, batch), topic) <= |Log(logs, topic)|
    ensures Projected(Taken(cursors, batch), topic)
            == Log(logs, topic)[Cursor(cursors, topic)..Cursor(Advanced(cursors, batch), topic)]
  {
    if batch != [] {
      LastIsNext(logs, cursors, batch);
      TakenIsTheLog(logs, cursors, batch[..|batch| - 1], topic);
      TakenStep(logs, cursors, batch, topic);
    }
  }

  lemma TakenStep(logs: Logs, cursors: map<string, nat>, batch: seq<Record>, topic: string)
    requires Genuine(logs, batch) && GapFree(cursors, batch) && batch != []
    requires var c := Cursor(Advanced(cursors, batch[..|batch| - 1]), topic);
             && Cursor(cursors, topic) <= c <= |Log(logs, topic)|
             && Projected(Taken(cursors, batch[..|batch| - 1]), topic) == Log(logs, topic)[Cursor(cursors, topic)..c]
    ensures Cursor(cursors, topic) <= Cursor(Advanced(cursors, batch), topic) <= |Log(logs, topic)|
    ensures Projected(Taken(cursors, batch), topic)
            == Log(logs, topic)[Cursor(cursors, topic)..Cursor(Advanced(cursors, batch), topic)]
  {
    hide *;
    var n := |batch| - 1;
    LastIsNext(logs, cursors, batch);
    TakenOneMore(cursors, batch, topic);
    LogExtends(Log(logs, topic), Cursor(cursors, topic), Cursor(Advanced(cursors, batch[..n]), topic), batch[n].offset,
               batch[n].topic == topic);
  }

  lemma LastIsNext(logs: Logs, cursors: map<string, nat>, batch: seq<Record>)
    requires Genuine(logs, batch) && GapFree(cursors, batch) && batch != []
    ensures var n := |batch| - 1;
            var rec := batch[n];
            && Genuine(logs, batch[..n]) && GapFree(cursors, batch[..n])
            && rec.offset <= Cursor(Advanced(cursors, batch[..n]), rec.topic) + 1
            && 1 <= rec.offset <= |Log(logs, rec.topic)| && rec.payload == Log(logs, rec.topic)[rec.offset - 1]
  {
    assert forall rec | rec in batch[..|batch| - 1] :: rec in batch;
    assert batch[|batch| - 1] in batch;
  }

  lemma LogExtends(log: seq<Payload>, from: nat, to: nat, offset: nat, mine: bool)
    requires from <= to <= |log| && (mine ==> 1 <= offset <= |log| && offset <= to + 1)
    ensures mine && offset > to ==> log[from..to] + [log[offset - 1]] == log[from..offset]
  {
  }

  /** One more record moves its topic's cursor and adds to what is taken of its topic, if it is news. */
  lemma TakenOneMore(cursors: map<string, nat>, batch: seq<Record>, topic: string)
    requires batch != []
    ensures var n := |batch| - 1;
            var c := Cursor(Advanced(cursors, batch[..n]), topic);
            var taken := Projected(Taken(cursors, batch[..n]), topic);
            if batch[n].topic == topic && batch[n].offset > c
            then Cursor(Advanced(cursors, batch), topic) == batch[n].offset
                 && Projected(Taken(cursors, batch), topic) == taken + [batch[n].payload]
            else Cursor(Advanced(cursors, batch), topic) == c && Projected(Taken(cursors, batch), topic) == taken
  {
    var n := |batch| - 1;
    var taken := Taken(cursors, batch[..n]);
    ProjectedOneMore(taken, batch[n], topic);
    assert taken + [] == taken;
    hide Projected;
  }

  lemma ProjectedOneMore(records: seq<Record>, rec: Record, topic: string)
    ensures Projected(records + [rec], topic)
            == if rec.topic == topic then Projected(records, topic) + [rec.payload] else Projected(records, topic)
  {
    assert (records + [rec])[..|records|] == records;
    assert Projected(records, topic) + [] == Projected(records, topic);
  }

  /** At-least-once delivery refines exactly-once: whatever the batches repeat, the loop leaves what one fold
      leaves that takes of each log its prefix up to the cursor, once and in order. */
  lemma ExactlyOnce(me: Me, logs: Logs, batches: seq<seq<Record>>, topic: string)
    requires Genuine(logs, Joined(batches)) && Served(map[], batches)
    ensures var run := ReadAll(me, Reader(BLANK_INBOX, map[]), batches);
            var taken := Taken(map[], Joined(batches));
            && run.inbox == Folded(me, BLANK_INBOX, taken)
            && Cursor(run.cursors, topic) <= |Log(logs, topic)|
            && Projected(taken, topic) == Log(logs, topic)[..Cursor(run.cursors, topic)]
  {
    var start := Reader(BLANK_INBOX, map[]);
    var all := Joined(batches);
    ReadAllIsConsumed(me, start, batches);
    ServedIsGapFree(map[], batches);
    ConsumedIsFolded(me, start, all);
    TakenIsTheLog(logs, map[], all, topic);
  }

  // Several batches

  function Joined(batches: seq<seq<Record>>): seq<Record> {
    if batches == [] then [] else Joined(batches[..|batches| - 1]) + batches[|batches| - 1]
  }

  function ReadAll(me: Me, r: Reader, batches: seq<seq<Record>>): Reader {
    if batches == [] then r else Consumed(me, ReadAll(me, r, batches[..|batches| - 1]), batches[|batches| - 1])
  }

  /** Each batch is made of windows that start no later than right after the cursors the reader has by then. */
  predicate Served(cursors: map<string, nat>, batches: seq<seq<Record>>) {
    batches == [] ||
    (Served(cursors, batches[..|batches| - 1])
     && Windows(Advanced(cursors, Joined(batches[..|batches| - 1])), batches[|batches| - 1]))
  }

  lemma {:induction false} ConsumedTwice(me: Me, r: Reader, a: seq<Record>, b: seq<Record>)
    ensures Consumed(me, r, a + b) == Consumed(me, Consumed(me, r, a), b)
    decreases |b|
  {
    if b == [] {
      assert a + b == a;
    } else {
      var n := |b| - 1;
      ConsumedTwice(me, r, a, b[..n]);
      assert (a + b)[..|a + b| - 1] == a + b[..n];
    }
  }

  lemma {:induction false} ReadAllIsConsumed(me: Me, r: Reader, batches: seq<seq<Record>>)
    ensures ReadAll(me, r, batches) == Consumed(me, r, Joined(batches))
  {
    if batches != [] {
      var n := |batches| - 1;
      ReadAllIsConsumed(me, r, batches[..n]);
      ConsumedTwice(me, r, Joined(batches[..n]), batches[n]);
    }
  }

  lemma {:induction false} AdvancedTwice(cursors: map<string, nat>, a: seq<Record>, b: seq<Record>)
    ensures Advanced(cursors, a + b) == Advanced(Advanced(cursors, a), b)
    decreases |b|
  {
    if b == [] {
      assert a + b == a;
    } else {
      var n := |b| - 1;
      AdvancedTwice(cursors, a, b[..n]);
      assert (a + b)[..|a + b| - 1] == a + b[..n];
    }
  }

  lemma {:induction false} GapFreeTwice(cursors: map<string, nat>, a: seq<Record>, b: seq<Record>)
    requires GapFree(cursors, a) && GapFree(Advanced(cursors, a), b)
    ensures GapFree(cursors, a + b)
    decreases |b|
  {
    if b == [] {
      assert a + b == a;
    } else {
      var n := |b| - 1;
      GapFreeTwice(cursors, a, b[..n]);
      AdvancedTwice(cursors, a, b[..n]);
      assert (a + b)[..|a + b| - 1] == a + b[..n];
    }
  }

  lemma {:induction false} ServedIsGapFree(cursors: map<string, nat>, batches: seq<seq<Record>>)
    requires Served(cursors, batches)
    ensures GapFree(cursors, Joined(batches))
  {
    if batches != [] {
      var n := |batches| - 1;
      ServedIsGapFree(cursors, batches[..n]);
      WindowsAreGapFree(Advanced(cursors, Joined(batches[..n])), batches[n]);
      GapFreeTwice(cursors, Joined(batches[..n]), batches[n]);
    }
  }

  // ---------------------------------------------------------------------------
  // The order between the topics
  // ---------------------------------------------------------------------------

  function FoldedTopic(me: Me, s: Inbox, topic: string, payloads: seq<Payload>): Inbox {
    if payloads == [] then s
    else Processed(me, FoldedTopic(me, s, topic, payloads[..|payloads| - 1]), topic, payloads[|payloads| - 1])
  }

  /** Secure envelopes neither read nor change the known users. */
  lemma SecureIgnoresDirectory(me: Me, s: Inbox, e: Envelope, known: map<string, KnownUser>)
    ensures SecureHeard(me, s.(knownUsers := known), e) == SecureHeard(me, s, e).(knownUsers := known)
    ensures SecureHeard(me, s, e).knownUsers == s.knownUsers
  {
  }

  /** The payload is no secure envelope that this user can open. */
  predicate Harmless(me: Me, payload: Payload) {
    !(payload.Secure? && Opens(me, BLANK_INBOX, payload.envelope))
  }

  /** A harmless presence record and a record of another topic may be processed in either order. */
  lemma TopicsCommute(me: Me, s: Inbox, presence: Payload, topic: string, other: Payload)
    requires Harmless(me, presence) && topic != TOPIC_PRESENCE
    ensures Processed(me, Processed(me, s, TOPIC_PRESENCE, presence), topic, other)
            == Processed(me, Processed(me, s, topic, other), TOPIC_PRESENCE, presence)
  {
    var p := TOPIC_PRESENCE;
    if presence.Secure? {
      assert forall any: Inbox :: SecureHeard(me, any, presence.envelope) == any;
    }
    hide SecureHeard, TOPIC_PRESENCE;
    if presence.Plain? && other.Secure? {
      var known := Processed(me, s, p, presence).knownUsers;
      SecureIgnoresDirectory(me, s, other.envelope, known);
      assert Processed(me, s, p, presence) == s.(knownUsers := known);
    }
  }

  /** The two orders agree in every state and for every record of the other topic if and only if the presence
      record is harmless: an envelope this user opens there competes with one of the same id. */
  lemma OrdersAgreeExactlyWhenHarmless(me: Me, presence: Payload, topic: string)
    requires topic != TOPIC_PRESENCE
    ensures (forall s, other ::
               Processed(me, Processed(me, s, TOPIC_PRESENCE, presence), topic, other)
               == Processed(me, Processed(me, s, topic, other), TOPIC_PRESENCE, presence))
            <==> Harmless(me, presence)
  {
    if Harmless(me, presence) {
      forall s, other
        ensures Processed(me, Processed(me, s, TOPIC_PRESENCE, presence), topic, other)
                == Processed(me, Processed(me, s, topic, other), TOPIC_PRESENCE, presence)
      {
        TopicsCommute(me, s, presence, topic, other);
      }
    } else {
      var s := BLANK_INBOX;
      var rival := Secure(Rival(me, presence.envelope));
      RivalMatters(me, presence.envelope);
      assert Processed(me, Processed(me, s, TOPIC_PRESENCE, presence), topic, rival)
             != Processed(me, Processed(me, s, topic, rival), TOPIC_PRESENCE, presence);
    }
  }

  /** An envelope with the same id and another message. */
  function Rival(me: Me, e: Envelope): Envelope
    requires Opens(me, BLANK_INBOX, e)
  {
    var one := e.(body := Some(Message("", "", "")));
    if SecureHeard(me, BLANK_INBOX, e) != SecureHeard(me, BLANK_INBOX, one) then one
    else e.(body := Some(Message("", "", "other")))
  }

  lemma RivalMatters(me: Me, e: Envelope)
    requires Opens(me, BLANK_INBOX, e)
    ensures SecureHeard(me, SecureHeard(me, BLANK_INBOX, e), Rival(me, e))
            != SecureHeard(me, SecureHeard(me, BLANK_INBOX, Rival(me, e)), e)
  {
    var one, two := e.(body := Some(Message("", "", ""))), e.(body := Some(Message("", "", "other")));
    assert SecureHeard(me, BLANK_INBOX, one).dms[""][0].content == "";
    assert SecureHeard(me, BLANK_INBOX, two).dms[""][0].content == "other";
    SeenOnce(me, e, Rival(me, e));
    SeenOnce(me, Rival(me, e), e);
  }

  lemma SeenOnce(me: Me, e: Envelope, again: Envelope)
    requires Opens(me, BLANK_INBOX, e) && again.msgId == e.msgId
    ensures SecureHeard(me, SecureHeard(me, BLANK_INBOX, e), again) == SecureHeard(me, BLANK_INBOX, e)
  {
    assert e.msgId in SecureHeard(me, BLANK_INBOX, e).seen;
  }

  lemma {:induction false} PresenceMovesBack(me: Me, s: Inbox, presence: Payload, topic: string, payloads: seq<Payload>)
    requires Harmless(me, presence) && topic != TOPIC_PRESENCE
    ensures FoldedTopic(me, Processed(me, s, TOPIC_PRESENCE, presence), topic, payloads)
            == Processed(me, FoldedTopic(me, s, topic, payloads), TOPIC_PRESENCE, presence)
  {
    hide Processed, TOPIC_PRESENCE, Harmless;
    if payloads != [] {
      var n := |payloads| - 1;
      PresenceMovesBack(me, s, presence, topic, payloads[..n]);
      TopicsCommute(me, FoldedTopic(me, s, topic, payloads[..n]), presence, topic, payloads[n]);
    }
  }

  /** Only these two topics, and only harmless records on the presence topic. */
  predicate TwoTopics(me: Me, records: seq<Record>, topic: string) {
    forall rec | rec in records ::
      rec.topic == topic || (rec.topic == TOPIC_PRESENCE && Harmless(me, rec.payload))
  }

  /** However the two topics interleave, the inbox is that of all presence records followed by all others. */
  lemma {:induction false} InterleavingIndependence(me: Me, s: Inbox, records: seq<Record>, topic: string)
    requires TwoTopics(me, records, topic) && topic != TOPIC_PRESENCE
    ensures Folded(me, s, records)
            == FoldedTopic(me, FoldedTopic(me, s, TOPIC_PRESENCE, Projected(records, TOPIC_PRESENCE)),
                           topic, Projected(records, topic))
  {
    if records != [] {
      var n := |records| - 1;
      assert records[n] in records && forall r | r in records[..n] :: r in records;
      InterleavingIndependence(me, s, records[..n], topic);
      hide *;
      FoldedOneMore(me, s, records);
      ProjectedOneMore(records[..n], records[n], TOPIC_PRESENCE);
      ProjectedOneMore(records[..n], records[n], topic);
      OneMoreRecord(me, s, Projected(records[..n], TOPIC_PRESENCE), topic, Projected(records[..n], topic), records[n]);
    } else {
      assert Projected(records, topic) == [] && Projected(records, TOPIC_PRESENCE) == [];
    }
  }

  lemma FoldedOneMore(me: Me, s: Inbox, records: seq<Record>)
    requires records != []
    ensures var n := |records| - 1;
            && records == records[..n] + [records[n]]
            && Folded(me, s, records)
               == Processed(me, Folded(me, s, records[..n]), records[n].topic, records[n].payload)
  {
  }

  lemma OneMoreRecord(me: Me, s: Inbox, p: seq<Payload>, topic: string, q: seq<Payload>, rec: Record)
    requires rec.topic == topic || (rec.topic == TOPIC_PRESENCE && Harmless(me, rec.payload))
    requires topic != TOPIC_PRESENCE
    ensures Processed(me, FoldedTopic(me, FoldedTopic(me, s, TOPIC_PRESENCE, p), topic, q), rec.topic, rec.payload)
            == if rec.topic == topic
               then FoldedTopic(me, FoldedTopic(me, s, TOPIC_PRESENCE, p), topic, q + [rec.payload])
               else FoldedTopic(me, FoldedTopic(me, s, TOPIC_PRESENCE, p + [rec.payload]), topic, q)
  {
    hide Processed, TOPIC_PRESENCE, Harmless;
    assert (p + [rec.payload])[..|p|] == p && (q + [rec.payload])[..|q|] == q;
    if rec.topic != topic {
      PresenceMovesBack(me, FoldedTopic(me, s, TOPIC_PRESENCE, p), rec.payload, topic, q);
    }
  }

  /** So the cursors alone say what the inbox holds: every run that reads the presence log up to one cursor and
      the inbox log up to the other, in whatever batches, ends with the same inbox. */
  lemma InboxIsAFunctionOfTheLogs(me: Me, logs: Logs, batches: seq<seq<Record>>, topic: string)
    requires Genuine(logs, Joined(batches)) && Served(map[], batches)
    requires TwoTopics(me, Joined(batches), topic) && topic != TOPIC_PRESENCE
    ensures var run := ReadAll(me, Reader(BLANK_INBOX, map[]), batches);
            var p, q := Cursor(run.cursors, TOPIC_PRESENCE), Cursor(run.cursors, topic);
            && p <= |Log(logs, TOPIC_PRESENCE)| && q <= |Log(logs, topic)|
            && run.inbox
               == FoldedTopic(me, FoldedTopic(me, BLANK_INBOX, TOPIC_PRESENCE, Log(logs, TOPIC_PRESENCE)[..p]),
                              topic, Log(logs, topic)[..q])
  {
    hide *;
    ExactlyOnce(me, logs, batches, TOPIC_PRESENCE);
    ExactlyOnce(me, logs, batches, topic);
    var taken := Taken(map[], Joined(batches));
    TakenIsDelivered(map[], Joined(batches));
    StillTwoTopics(me, Joined(batches), taken, topic);
    InterleavingIndependence(me, BLANK_INBOX, taken, topic);
  }

  lemma StillTwoTopics(me: Me, records: seq<Record>, some: seq<Record>, topic: string)
    requires TwoTopics(me, records, topic) && forall rec | rec in some :: rec in records
    ensures TwoTopics(me, some, topic)
  {
  }

  lemma {:induction false} TakenIsDelivered(cursors: map<string, nat>, batch: seq<Record>)
    ensures forall rec | rec in Taken(cursors, batch) :: rec in batch
  {
    if batch != [] {
      TakenIsDelivered(cursors, batch[..|batch| - 1]);
    }
  }

  // ---------------------------------------------------------------------------
  // Subscribing again
  // ---------------------------------------------------------------------------

  /** The offset a subscription starts from: 0, or the lowest recorded cursor. */
  ghost predicate StartsFrom(cursors: map<string, nat>, from: int) {
    if cursors == map[] then from == 0
    else from in cursors.Values && forall topic | topic in cursors :: from <= cursors[topic]
  }

  /** Whether the daemon serves the record at the offset a subscription starts from, or those after it only. */
  datatype Rule = FromHere | AfterHere

  function FirstServed(rule: Rule, from: nat): nat {
    if rule.AfterHere? then from + 1 else if from == 0 then 1 else from
  }

  /** What a subscription from this offset may serve: every topic from the first offset on, in windows. */
  predicate ServedFrom(rule: Rule, from: nat, stream: seq<Record>) {
    forall i | 0 <= i < |stream| ::
      && stream[i].offset >= FirstServed(rule, from)
      && (|| stream[i].offset == FirstServed(rule, from)
          || (exists j | 0 <= j < i :: stream[j].topic == stream[i].topic && stream[i].offset == stream[j].offset + 1))
  }

  predicate OfTopics(records: seq<Record>, topic: string) {
    forall rec | rec in records :: rec.topic == topic || rec.topic == TOPIC_PRESENCE
  }

  /** None of the two topics has a cursor yet, or both have, or the only one is 1 and served again. */
  predicate CoversBoth(rule: Rule, cursors: map<string, nat>, topic: string, from: nat) {
    cursors == map[] || (topic in cursors && TOPIC_PRESENCE in cursors) || (rule.FromHere? && from == 1)
  }

  lemma CoveredIsWindows(rule: Rule, cursors: map<string, nat>, topic: string, from: nat, stream: seq<Record>)
    requires StartsFrom(cursors, from) && CoversBoth(rule, cursors, topic, from)
    requires ServedFrom(rule, from, stream) && OfTopics(stream, topic)
    ensures Windows(cursors, stream)
  {
    hide TOPIC_PRESENCE;
    forall i | 0 <= i < |stream|
      ensures || stream[i].offset <= Cursor(cursors, stream[i].topic) + 1
              || (exists j | 0 <= j < i ::
                    stream[j].topic == stream[i].topic && stream[i].offset == stream[j].offset + 1)
    {
      assert stream[i] in stream;
      assert FirstServed(rule, from) <= Cursor(cursors, stream[i].topic) + 1;
    }
  }

  /** Whatever a new subscription serves carries on from the cursors, without skipping a record, if and only if
      its one offset covers both topics. */
  lemma ResubscribeCovers(rule: Rule, cursors: map<string, nat>, topic: string, from: nat)
    requires StartsFrom(cursors, from) && topic != TOPIC_PRESENCE
    requires forall t | t in cursors :: cursors[t] >= 1 && (t == topic || t == TOPIC_PRESENCE)
    ensures (forall stream | ServedFrom(rule, from, stream) && OfTopics(stream, topic) :: Windows(cursors, stream))
            <==> CoversBoth(rule, cursors, topic, from)
  {
    if CoversBoth(rule, cursors, topic, from) {
      forall stream | ServedFrom(rule, from, stream) && OfTopics(stream, topic) ensures Windows(cursors, stream) {
        CoveredIsWindows(rule, cursors, topic, from, stream);
      }
    } else {
      hide TOPIC_PRESENCE;
      var missing := if topic in cursors then TOPIC_PRESENCE else topic;
      var stream := [Record(missing, FirstServed(rule, from), OtherPayload)];
      assert missing !in cursors && FirstServed(rule, from) > 1;
      assert ServedFrom(rule, from, stream) && OfTopics(stream, topic);
      assert stream[0].offset > Cursor(cursors, stream[0].topic) + 1;
      assert !Windows(cursors, stream);
    }
  }

  /** What the state file holds: all but the seen ids. */
  function Persisted(r: Reader): Reader {
    r.(inbox := r.inbox.(seen := {}))
  }

  lemma {:induction false} TakenTwice(cursors: map<string, nat>, a: seq<Record>, b: seq<Record>)
    ensures Taken(cursors, a + b) == Taken(cursors, a) + Taken(Advanced(cursors, a), b)
    decreases |b|
  {
    if b == [] {
      assert a + b == a;
      assert Taken(cursors, a) + [] == Taken(cursors, a);
    } else {
      TakenTwice(cursors, a, b[..|b| - 1]);
      TakenTwiceMore(cursors, a, b);
    }
  }

  lemma TakenTwiceMore(cursors: map<string, nat>, a: seq<Record>, b: seq<Record>)
    requires b != []
    requires var before := b[..|b| - 1];
             Taken(cursors, a + before) == Taken(cursors, a) + Taken(Advanced(cursors, a), before)
    ensures Taken(cursors, a + b) == Taken(cursors, a) + Taken(Advanced(cursors, a), b)
  {
    hide Taken, Advanced;
    var before := b[..|b| - 1];
    AdvancedTwice(cursors, a, before);
    assert (a + b)[..|a + b| - 1] == a + before;
    TakenLast(cursors, a + b);
    TakenLast(Advanced(cursors, a), b);
  }

  lemma TakenLast(cursors: map<string, nat>, batch: seq<Record>)
    requires batch != []
    ensures var n := |batch| - 1;
            Taken(cursors, batch)
            == Taken(cursors, batch[..n])
               + if batch[n].offset > Cursor(Advanced(cursors, batch[..n]), batch[n].topic) then [batch[n]] else []
  {
    hide Advanced;
  }

  /** Exactly once across a restart: where the new subscription covers both topics, the records taken before and after
      it are together, of each topic, the prefix of the log up to the cursor, once and in order. */
  lemma ExactlyOnceAcrossRestart(me: Me, logs: Logs, before: seq<seq<Record>>, rule: Rule, from: nat,
          stream: seq<Record>, topic: string, t: string)
    requires Genuine(logs, Joined(before)) && Served(map[], before)
    requires Genuine(logs, stream) && OfTopics(stream, topic) && ServedFrom(rule, from, stream)
    requires var cursors := ReadAll(me, Reader(BLANK_INBOX, map[]), before).cursors;
             StartsFrom(cursors, from) && CoversBoth(rule, cursors, topic, from)
    ensures var stopped := ReadAll(me, Reader(BLANK_INBOX, map[]), before);
            var end := Consumed(me, Persisted(stopped), stream);
            var first, second := Taken(map[], Joined(before)), Taken(stopped.cursors, stream);
            && stopped.inbox == Folded(me, BLANK_INBOX, first)
            && end.inbox == Folded(me, stopped.inbox.(seen := {}), second)
            && Cursor(end.cursors, t) <= |Log(logs, t)|
            && Projected(first + second, t) == Log(logs, t)[..Cursor(end.cursors, t)]
  {
    hide *;
    var start := Reader(BLANK_INBOX, map[]);
    var all := Joined(before);
    var stopped := ReadAll(me, start, before);
    ReadAllIsConsumed(me, start, before);
    ServedIsGapFree(map[], before);
    ConsumedIsFolded(me, start, all);
    var saved := PersistedReader(stopped);
    ConsumedIsFolded(me, saved, stream);
    CoveredIsWindows(rule, stopped.cursors, topic, from, stream);
    WindowsAreGapFree(stopped.cursors, stream);
    GapFreeTwice(map[], all, stream);
    TakenTwice(map[], all, stream);
    AdvancedTwice(map[], all, stream);
    GenuineTogether(logs, all, stream);
    NoCursorYet(t);
    TakenIsTheLog(logs, map[], all + stream, t);
    FromTheStart(Log(logs, t), Cursor(Advanced(map[], all + stream), t));
  }

  lemma PersistedReader(r: Reader) returns (saved: Reader)
    ensures saved == Persisted(r) && saved.cursors == r.cursors && saved.inbox == r.inbox.(seen := {})
  {
    saved := Persisted(r);
  }

  lemma GenuineTogether(logs: Logs, a: seq<Record>, b: seq<Record>)
    requires Genuine(logs, a) && Genuine(logs, b)
    ensures Genuine(logs, a + b)
  {
  }

  lemma NoCursorYet(t: string)
    ensures Cursor(map[], t) == 0
  {
  }

  lemma FromTheStart<T>(s: seq<T>, n: nat)
    requires n <= |s|
    ensures s[0..n] == s[..n]
  {
  }

  /** Where it does not cover both: the presence log was read up to its second record before the inbox had one.
      The record that arrives there meanwhile is not served to the new subscription and never taken. */
  lemma InboxRecordMissed(me: Me, p: Payload, q: Payload, topic: string, rule: Rule, stream: seq<Record>)
    requires topic != TOPIC_PRESENCE
    requires var logs := map[TOPIC_PRESENCE := [p, p], topic := [q]];
             Genuine(logs, stream) && ServedFrom(rule, 2, stream)
    ensures var logs := map[TOPIC_PRESENCE := [p, p], topic := [q]];
            var batch := [Record(TOPIC_PRESENCE, 1, p), Record(TOPIC_PRESENCE, 2, p)];
            var stopped := ReadAll(me, Reader(BLANK_INBOX, map[]), [batch]);
            && Genuine(logs, batch) && Served(map[], [batch]) && StartsFrom(stopped.cursors, 2)
            && Cursor(Consumed(me, Persisted(stopped), stream).cursors, topic) == 0
            && forall rec | rec in Taken(stopped.cursors, stream) :: rec.topic != topic
  {
    hide *;
    var batch := [Record(TOPIC_PRESENCE, 1, p), Record(TOPIC_PRESENCE, 2, p)];
    var cursors := map[TOPIC_PRESENCE := 2];
    TwoPresences(me, p, q, topic, batch);
    NotServed(p, q, topic, rule, stream);
    TakenIsDelivered(cursors, stream);
    NothingOfTopic(cursors, stream, topic);
    var saved := PersistedReader(ReadAll(me, Reader(BLANK_INBOX, map[]), [batch]));
    ConsumedIsFolded(me, saved, stream);
  }

  lemma NotServed(p: Payload, q: Payload, topic: string, rule: Rule, stream: seq<Record>)
    requires topic != TOPIC_PRESENCE
    requires Genuine(map[TOPIC_PRESENCE := [p, p], topic := [q]], stream) && ServedFrom(rule, 2, stream)
    ensures forall rec | rec in stream :: rec.topic != topic
  {
    hide TOPIC_PRESENCE;
    forall rec | rec in stream ensures rec.topic != topic {
      assert rec.offset >= 2;
    }
  }

  lemma TwoPresences(me: Me, p: Payload, q: Payload, topic: string, batch: seq<Record>)
    requires topic != TOPIC_PRESENCE && batch == [Record(TOPIC_PRESENCE, 1, p), Record(TOPIC_PRESENCE, 2, p)]
    ensures Genuine(map[TOPIC_PRESENCE := [p, p], topic := [q]], batch) && Served(map[], [batch])
    ensures StartsFrom(map[TOPIC_PRESENCE := 2], 2)
    ensures ReadAll(me, Reader(BLANK_INBOX, map[]), [batch]).cursors == map[TOPIC_PRESENCE := 2]
  {
    hide TOPIC_PRESENCE, Processed;
    var start := Reader(BLANK_INBOX, map[]);
    assert batch[..1] == [batch[0]] && batch[..1][..0] == [] && [batch][..0] == [];
    assert Joined([]) == [];
    assert Windows(map[], batch) by {
      assert batch[1].offset == batch[0].offset + 1;
    }
    assert Consumed(me, start, batch[..1]) == Delivered(me, start, batch[0]);
    var cursors: map<string, nat> := map[TOPIC_PRESENCE := 2];
    assert cursors[TOPIC_PRESENCE] == 2;
  }

  lemma {:induction false} NothingOfTopic(cursors: map<string, nat>, stream: seq<Record>, topic: string)
    requires topic !in cursors && forall rec | rec in stream :: rec.topic != topic
    ensures Cursor(Advanced(cursors, stream), topic) == 0
  {
    if stream != [] {
      var n := |stream| - 1;
      assert stream[n] in stream && forall rec | rec in stream[..n] :: rec in stream;
      NothingOfTopic(cursors, stream[..n], topic);
    }
  }
}
