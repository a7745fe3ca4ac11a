/** What reading records (internal/social/manager.go) leaves of what was said: every conversation holds the opened
    messages of its peer in order, and the directory the latest announcement of every user. */
module SocialConversations {
  import opened Social
  import opened SocialReader

  // ---------------------------------------------------------------------------
  // One envelope
  // ---------------------------------------------------------------------------

  /** The envelope is for this user, who can open it. */
  predicate Readable(me: Me, e: Envelope) {
    && me.unlocked && me.profile.Some? && me.profile.value.userId != "" && e.to == me.profile.value.userId
    && e.msgId != "" && e.body.Some?
  }

  /** A new message is put at the end of its sender's conversation, and touches nothing else. */
  lemma MessageAppends(me: Me, s: Inbox, e: Envelope, peer: string)
    requires Readable(me, e) && e.msgId !in s.seen && e.body.value.Message?
    ensures var Message(from, id, content) := e.body.value;
            var after := SecureHeard(me, s, e);
            && after.requests == s.requests && after.friends == s.friends && after.knownUsers == s.knownUsers
            && after.seen == s.seen + {e.msgId}
            && from in after.dms
            && after.dms[from] == (if from in s.dms then s.dms[from] else [])
                                  + [DirectMessage.DirectMessage(id, from, me.profile.value.userId, content)]
            && (peer != from ==> (peer in after.dms <==> peer in s.dms))
            && (peer != from && peer in s.dms ==> after.dms[peer] == s.dms[peer])
  {
  }

  /** A new response records its status under a request that is known, makes a friend exactly by acceptance, and
      touches no
      other request and no conversation. */
  lemma ResponseRecords(me: Me, s: Inbox, e: Envelope)
    requires Readable(me, e) && e.msgId !in s.seen && e.body.value.Response?
    ensures var Response(from, id, status) := e.body.value;
            var after := SecureHeard(me, s, e);
            && after.dms == s.dms && after.knownUsers == s.knownUsers && after.seen == s.seen + {e.msgId}
            && after.requests.Keys == s.requests.Keys
            && (forall i | i in s.requests && i != id :: after.requests[i] == s.requests[i])
            && (id in s.requests ==> after.requests[id] == s.requests[id].(status := status))
            && (forall v :: v in after.friends <==> v in s.friends || (v == from && status == Accepted))
  {
  }

  /** A new request is entered as waiting, under the wallet's name, if strangers or this friend may ask, the wallet is
      proven and the name its own, and the id is new; it touches nothing else. */
  lemma RequestEnters(me: Me, s: Inbox, e: Envelope)
    requires Readable(me, e) && e.msgId !in s.seen && e.body.value.Request?
    ensures var Request(from, id, letter, proven, matches) := e.body.value;
            var after := SecureHeard(me, s, e);
            && after.dms == s.dms && after.knownUsers == s.knownUsers && after.friends == s.friends
            && after.seen == s.seen + {e.msgId}
            && (forall i | i != id :: i in after.requests <==> i in s.requests)
            && (id in after.requests <==>
                  || id in s.requests
                  || ((me.profile.value.allowStrangers || from in s.friends) && proven && matches && id != ""))
            && (forall i | i in s.requests :: after.requests[i] == s.requests[i])
            && (id in after.requests && id !in s.requests ==>
                  var r := after.requests[id];
                  && r.id == id && r.from == from && r.to == me.profile.value.userId && r.status == PendingIn
                  && r.letter == letter.(fromName := letter.walletAddress))
  {
  }

  // ---------------------------------------------------------------------------
  // A whole read
  // ---------------------------------------------------------------------------

  /** The ids of the envelopes among the records that this user can open. */
  function ReadIds(me: Me, records: seq<Record>): set<string> {
    set rec | rec in records && rec.payload.Secure? && Readable(me, rec.payload.envelope) :: rec.payload.envelope.msgId
  }

  /** The last of the records is an envelope that is opened: this user can, and no earlier one had its id. */
  predicate LastIsOpened(me: Me, seen: set<string>, records: seq<Record>)
    requires records != []
  {
    var rec := records[|records| - 1];
    && rec.payload.Secure? && Readable(me, rec.payload.envelope)
    && rec.payload.envelope.msgId !in seen
    && rec.payload.envelope.msgId !in ReadIds(me, records[..|records| - 1])
  }

  /** The messages from this peer among the opened envelopes, in order. */
  function Said(me: Me, seen: set<string>, records: seq<Record>, peer: string): seq<DirectMessage> {
    if records == [] then []
    else
      var before, rec := records[..|records| - 1], records[|records| - 1];
      Said(me, seen, before, peer)
      + if LastIsOpened(me, seen, records) && rec.payload.envelope.body.value.Message?
           && rec.payload.envelope.body.value.from == peer
        then var Message(_, id, content) := rec.payload.envelope.body.value;
             [DirectMessage.DirectMessage(id, peer, me.profile.value.userId, content)]
        else []
  }

  lemma {:induction false} SeenAreRead(me: Me, s: Inbox, records: seq<Record>)
    ensures Folded(me, s, records).seen == s.seen + ReadIds(me, records)
  {
    if records == [] {
      assert ReadIds(me, records) == {};
    } else {
      var n := |records| - 1;
      SeenAreRead(me, s, records[..n]);
      assert records == records[..n] + [records[n]];
      var e := records[n].payload;
      assert ReadIds(me, records)
             == ReadIds(me, records[..n]) + if e.Secure? && Readable(me, e.envelope) then {e.envelope.msgId} else {};
      SeenGrows(me, Folded(me, s, records[..n]), records[n]);
    }
  }

  lemma SeenGrows(me: Me, s: Inbox, rec: Record)
    ensures Processed(me, s, rec.topic, rec.payload).seen
            == s.seen + if rec.payload.Secure? && Readable(me,
                rec.payload.envelope) then {rec.payload.envelope.msgId} else {}
  {
  }

  /** One record adds a message to a conversation exactly where it is an opened message of that peer. */
  lemma OneRecordSays(me: Me, s: Inbox, rec: Record, peer: string)
    ensures var after := Processed(me, s, rec.topic, rec.payload);
            if rec.payload.Secure? && Readable(me, rec.payload.envelope) && rec.payload.envelope.msgId !in s.seen
               && rec.payload.envelope.body.value.Message? && rec.payload.envelope.body.value.from == peer
            then var Message(_, id, content) := rec.payload.envelope.body.value;
                 Conversation(after, peer)
                 == Conversation(s, peer) + [DirectMessage.DirectMessage(id, peer, me.profile.value.userId, content)]
            else Conversation(after, peer) == Conversation(s, peer)
  {
    if rec.payload.Secure? && Opens(me, s, rec.payload.envelope) && rec.payload.envelope.body.value.Message? {
      MessageAppends(me, s, rec.payload.envelope, peer);
    }
  }

  /** Whatever records are processed, a conversation grows by exactly the opened messages of its peer, in order. */
  lemma {:induction false} ConversationIsSaid(me: Me, s: Inbox, records: seq<Record>, peer: string)
    ensures Conversation(Folded(me, s, records), peer) == Conversation(s, peer) + Said(me, s.seen, records, peer)
  {
    if records == [] {
      assert Conversation(s, peer) + [] == Conversation(s, peer);
    } else {
      var n := |records| - 1;
      ConversationIsSaid(me, s, records[..n], peer);
      SeenAreRead(me, s, records[..n]);
      OneRecordSays(me, Folded(me, s, records[..n]), records[n], peer);
      hide Processed, Readable, Conversation, ReadIds;
      var said := Said(me, s.seen, records[..n], peer);
      assert said + [] == said;
      assert forall m: DirectMessage :: Conversation(s, peer) + (said + [m]) == Conversation(s, peer) + said + [m];
    }
  }

  /** After any batches that skip no record, repeated and overlapping as they may be, a conversation is the opened
      messages of its peer among the records taken, each once and in order. */
  lemma ConversationsAreComplete(me: Me, batches: seq<seq<Record>>, peer: string)
    ensures Conversation(ReadAll(me, Reader(BLANK_INBOX, map[]), batches).inbox, peer)
            == Said(me, {}, Taken(map[], Joined(batches)), peer)
  {
    var start := Reader(BLANK_INBOX, map[]);
    ReadAllIsConsumed(me, start, batches);
    ConsumedIsFolded(me, start, Joined(batches));
    ConversationIsSaid(me, BLANK_INBOX, Taken(map[], Joined(batches)), peer);
    hide ReadAll, Folded, Said, Taken, Joined;
  }

  // ---------------------------------------------------------------------------
  // The directory
  // ---------------------------------------------------------------------------

  /** The record announces this user on the presence topic. */
  predicate AnnouncesUser(me: Me, rec: Record, user: string) {
    && rec.topic == TOPIC_PRESENCE && rec.payload.Plain? && rec.payload.about.userId == user != ""
    && !(me.profile.Some? && me.profile.value.userId == user)
  }

  /** A user is known by the latest announcement among the records, or as before if there is none. */
  lemma {:induction false} DirectoryIsLatest(me: Me, s: Inbox, records: seq<Record>, user: string)
    ensures var known := Folded(me, s, records).knownUsers;
            if exists i | 0 <= i < |records| :: AnnouncesUser(me, records[i], user)
            then user in known
                 && exists i | 0 <= i < |records| ::
                      && AnnouncesUser(me, records[i], user) && known[user] == records[i].payload.about
                      && forall j | i < j < |records| :: !AnnouncesUser(me, records[j], user)
            else (user in known <==> user in s.knownUsers) && (user in known ==> known[user] == s.knownUsers[user])
  {
    if records != [] {
      var n := |records| - 1;
      DirectoryIsLatest(me, s, records[..n], user);
      OneRecordAnnounces(me, Folded(me, s, records[..n]), records[n], user);
      hide Processed, AnnouncesUser;
      if AnnouncesUser(me, records[n], user) {
      } else if i :| 0 <= i < n && AnnouncesUser(me, records[..n][i], user)
                     && Folded(me, s, records[..n]).knownUsers[user] == records[..n][i].payload.about
                     && forall j | i < j < n :: !AnnouncesUser(me, records[..n][j], user) {
        assert records[i] == records[..n][i];
        assert forall j | i < j < n :: records[j] == records[..n][j];
      } else {
        assert forall j | 0 <= j < n :: records[j] == records[..n][j];
      }
    }
  }

  lemma OneRecordAnnounces(me: Me, s: Inbox, rec: Record, user: string)
    ensures var known := Processed(me, s, rec.topic, rec.payload).knownUsers;
            if AnnouncesUser(me, rec, user) then user in known && known[user] == rec.payload.about
            else (user in known <==> user in s.knownUsers) && (user in known ==> known[user] == s.knownUsers[user])
  {
    if rec.payload.Secure? {
      SecureIgnoresDirectory(me, s, rec.payload.envelope, s.knownUsers);
    }
    hide TOPIC_PRESENCE;
  }
}
