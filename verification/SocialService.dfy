/** The social manager (internal/social/manager.go) as an object whose tables are updated in place. Every method
    is proved to do what module Social and module SocialReader say on values. */
module SocialService {
  import opened Social
  import opened SocialReader

  /** The envelope is addressed to this user, who can open it, and its id is new. */
  predicate Opened(profile: Option<Profile>, unlocked: bool, seen: set<string>, e: Envelope) {
    && unlocked && profile.Some? && e.to == profile.value.userId != "" && e.msgId !in seen + {""} && e.body.Some?
  }

  class Manager {
    var profile: Option<Profile>
    var unlocked: bool
    var knownUsers: map<string, KnownUser>
    var requests: map<string, FriendRequest>
    var friends: set<string>
    var dms: map<string, seq<DirectMessage>>
    var cursors: map<string, nat>
    var seenMessageIDs: set<string>
    var subscriptionID: string
    /** What state.json holds. */
    var stateFile: Reader

    function Self(): Me
      reads this
    {
      Me(profile, unlocked)
    }

    function Tables(): Inbox
      reads this
    {
      Inbox(knownUsers, requests, friends, dms, seenMessageIDs)
    }

    function State(): Reader
      reads this
    {
      Reader(Tables(), cursors)
    }

    /** A manager that starts with the state file it finds, or a blank one, and the profile and keys it can load. */
    constructor (me: Me, file: Reader)
      ensures State() == Persisted(file) && stateFile == file && Self() == me && subscriptionID == ""
    {
      profile, unlocked := me.profile, me.unlocked;
      knownUsers, requests := file.inbox.knownUsers, file.inbox.requests;
      friends, dms := file.inbox.friends, file.inbox.dms;
      cursors := file.cursors;
      seenMessageIDs := {};
      subscriptionID := "";
      stateFile := file;
    }

    method SaveState()
      modifies this`stateFile
      ensures stateFile == Persisted(State())
      ensures stateFile.inbox.knownUsers == knownUsers && stateFile.inbox.requests == requests
      ensures stateFile.inbox.friends == friends && stateFile.inbox.dms == dms
      ensures stateFile.cursors == cursors && stateFile.inbox.seen == {}
    {
      stateFile := Reader(Inbox(knownUsers, requests, friends, dms, {}), cursors);
    }

    // Reading records

    method HandlePresence(about: KnownUser)
      modifies this`knownUsers, this`stateFile
      ensures Tables() == PresenceHeard(Self(), old(Tables()), about)
      ensures knownUsers == if about.userId == "" || (profile.Some? && profile.value.userId == about.userId)
                            then old(knownUsers) else old(knownUsers)[about.userId := about]
      ensures stateFile == if Announces(Self(), about) then Persisted(State()) else old(stateFile)
    {
      if about.userId == "" { return; }
      if profile.Some? && about.userId == profile.value.userId { return; }
      knownUsers := knownUsers[about.userId := about];
      SaveState();
    }

    method HandleSecure(e: Envelope)
      modifies this`requests, this`friends, this`dms, this`seenMessageIDs, this`stateFile
      ensures Tables() == SecureHeard(Self(), old(Tables()), e)
      ensures !Opened(profile, unlocked, old(seenMessageIDs), e) ==>
                Tables() == old(Tables()) && stateFile == old(stateFile)
      ensures Opened(profile, unlocked, old(seenMessageIDs), e) ==>
                !e.body.value.Request? || requests != old(requests) ==> stateFile == Persisted(State())
      ensures Opened(profile, unlocked, old(seenMessageIDs), e) ==> seenMessageIDs == old(seenMessageIDs) + {e.msgId}
      ensures Opened(profile, unlocked, old(seenMessageIDs), e) && e.body.value.Message? ==>
                var Message(from, id, content) := e.body.value;
                && requests == old(requests) && friends == old(friends)
                && dms == old(dms)[from := (if from in old(dms) then old(dms)[from] else [])
                                           + [DirectMessage.DirectMessage(id, from, profile.value.userId, content)]]
      ensures Opened(profile, unlocked, old(seenMessageIDs), e) && e.body.value.Response? ==>
                var Response(from, id, status) := e.body.value;
                && dms == old(dms)
                && requests == (if id in old(requests)
                                then old(requests)[id := old(requests)[id].(status := status)] else old(requests))
                && friends == old(friends) + (if status == Accepted then {from} else {})
      ensures Opened(profile, unlocked, old(seenMessageIDs), e) && e.body.value.Request? ==>
                var Request(from, id, letter, proven, matches) := e.body.value;
                && dms == old(dms) && friends == old(friends)
                && requests == if (profile.value.allowStrangers || from in friends) && proven && matches && id != ""
                                  && id !in old(requests)
                               then old(requests)[id := FriendRequest.FriendRequest(id, from, profile.value.userId,
                                      letter.(fromName := letter.walletAddress), PendingIn)]
                               else old(requests)
      ensures stateFile == if SecureSaves(Self(), old(Tables()), e) then Persisted(State()) else old(stateFile)
    {
      var myUser := if profile.Some? then profile.value.userId else "";
      if !unlocked || myUser == "" { return; }
      if e.to != myUser { return; }
      if e.msgId == "" { return; }
      if e.msgId in seenMessageIDs { return; }
      if e.body.None? { return; }
      seenMessageIDs := seenMessageIDs + {e.msgId};
      match e.body.value {
      case Request(from, requestId, letter, walletProven, nameMatches) =>
        if !profile.value.allowStrangers && from !in friends { return; }
        if !walletProven { return; }
        if !nameMatches { return; }
        if requestId == "" { return; }
        if requestId in requests { return; }
        var named := letter.(fromName := letter.walletAddress);
        requests := requests[requestId := FriendRequest.FriendRequest(requestId, from, myUser, named, PendingIn)];
      case Response(from, requestId, status) =>
        if requestId in requests {
          var req := requests[requestId];
          requests := requests[requestId := req.(status := status)];
        }
        if status == Accepted {
          friends := friends + {from};
        }
      case Message(from, messageId, content) =>
        var said := if from in dms then dms[from] else [];
        dms := dms[from := said + [DirectMessage.DirectMessage(messageId, from, myUser, content)]];
      case OtherBody =>
      }
      SaveState();
    }

    method ProcessRecord(rec: Record)
      modifies this`knownUsers, this`requests, this`friends, this`dms, this`seenMessageIDs, this`stateFile
      ensures Tables() == Processed(Self(), old(Tables()), rec.topic, rec.payload)
      ensures stateFile == if RecordSaves(Self(), old(Tables()), rec.topic, rec.payload)
                           then Persisted(State()) else old(stateFile)
    {
      match rec.payload
      case Plain(about) =>
        if rec.topic == TOPIC_PRESENCE {
          HandlePresence(about);
        }
      case Secure(e) => HandleSecure(e);
      case OtherPayload =>
    }

    method ShouldProcess(topic: string, offset: nat) returns (news: bool)
      ensures news <==> offset > Cursor(cursors, topic)
    {
      var cursor := if topic in cursors then cursors[topic] else 0;
      return offset > cursor;
    }

    method CommitCursor(topic: string, offset: nat)
      modifies this`cursors, this`stateFile
      ensures cursors == old(cursors)[topic := offset] && stateFile == Persisted(State())
    {
      cursors := cursors[topic := offset];
      SaveState();
    }

    /** The records of one pull. Where one was news the state file holds everything afterwards. */
    method ReadBatch(batch: seq<Record>)
      modifies this`knownUsers, this`requests, this`friends, this`dms, this`seenMessageIDs, this`cursors, this`stateFile
      ensures State() == Consumed(Self(), old(State()), batch)
      ensures stateFile == if Taken(old(cursors), batch) == [] then old(stateFile) else Persisted(State())
    {
      hide Processed, Consumed, RecordSaves, Persisted, Taken, Advanced;
      ghost var start := State();
      ConsumedNone(Self(), start);
      assert batch[..0] == [];
      for i := 0 to |batch|
        invariant State() == Consumed(Self(), start, batch[..i])
        invariant stateFile == if Taken(start.cursors, batch[..i]) == [] then old(stateFile) else Persisted(State())
      {
        ConsumedOneMore(Self(), start, batch, i);
        var msg := batch[i];
        var news := ShouldProcess(msg.topic, msg.offset);
        if !news { continue; }
        ProcessRecord(msg);
        CommitCursor(msg.topic, msg.offset);
      }
      assert batch[..|batch|] == batch;
    }

    // Subscribing

    /** A subscription asked for; the daemon's answer is its id, or none when the call fails. */
    method EnsureSubscribed(answer: Option<string>) returns (asked: Option<(seq<string>, int)>)
      modifies this`subscriptionID
      ensures asked.Some? <==> old(subscriptionID) == "" && profile.Some?
      ensures asked.Some? ==>
                && StartsFrom(cursors, asked.value.1)
                && asked.value.0 == [TOPIC_PRESENCE, InboxTopic(profile.value.userId)]
      ensures subscriptionID == if asked.Some? && answer.Some? then answer.value else old(subscriptionID)
    {
      if subscriptionID != "" { return None; }
      if profile.None? { return None; }
      var from: int := 0;
      if |cursors| > 0 {
        from := -1;
        var rest := cursors.Keys;
        while rest != {}
          invariant rest <= cursors.Keys
          invariant from >= -1 && (from == -1 <==> rest == cursors.Keys)
          invariant from >= 0 ==> from in cursors.Values
          invariant from >= 0 ==> forall topic | topic in cursors.Keys - rest :: from <= cursors[topic]
          decreases |rest|
        {
          var topic :| topic in rest;
          rest := rest - {topic};
          var v := cursors[topic];
          if from < 0 || v < from {
            from := v;
          }
        }
        if from < 0 { from := 0; }
      }
      var topics := [TOPIC_PRESENCE, InboxTopic(profile.value.userId)];
      if answer.Some? {
        subscriptionID := answer.value;
      }
      return Some((topics, from));
    }

    // The user's calls

    /** The body to publish, if it comes to that, and what the call reports; published says whether the
        publication went through. */
    method SendFriendRequest(target: string, letter: Letter, wallet: Wallet, requestId: string, published: bool)
      returns (body: Option<Body>, error: Option<Error>)
      modifies this`requests, this`stateFile
      ensures var (after, sent, refused) := Asked(Self(), old(Tables()), target, letter, wallet, requestId);
              && Tables() == after && body == sent
              && error == if refused.Some? then refused else if published then None else Some(PublishFailed)
      ensures stateFile == if error.None? then Persisted(State()) else old(stateFile)
      ensures error == if profile.None? || !unlocked then Some(NotInitialized)
                       else if !wallet.isAddress then Some(WalletRequired)
                       else if !wallet.isMine then Some(WalletMismatch)
                       else if !wallet.proven then Some(InvalidWalletSignature)
                       else if target !in knownUsers then Some(TargetUnknown)
                       else if !published then Some(PublishFailed) else None
      ensures error.None? || error == Some(PublishFailed) ==>
                && var me := profile.value.userId;
                && requests == old(requests)[requestId := FriendRequest.FriendRequest(requestId, me, target, letter,
                    PendingOut)]
                && body == Some(Request(me, requestId, letter, true, true))
      ensures error.Some? && error != Some(PublishFailed) ==> requests == old(requests) && body.None?
    {
      if profile.None? || !unlocked { return None, Some(NotInitialized); }
      if !wallet.isAddress { return None, Some(WalletRequired); }
      if !wallet.isMine { return None, Some(WalletMismatch); }
      if !wallet.proven { return None, Some(InvalidWalletSignature); }
      if target !in knownUsers { return None, Some(TargetUnknown); }
      var me := profile.value.userId;
      requests := requests[requestId := FriendRequest.FriendRequest(requestId, me, target, letter, PendingOut)];
      body := Some(Request(me, requestId, letter, true, true));
      if !published { return body, Some(PublishFailed); }
      SaveState();
      return body, None;
    }

    method RespondFriendRequest(requestId: string, accept: bool, published: bool)
      returns (body: Option<Body>, error: Option<Error>)
      modifies this`requests, this`friends, this`stateFile
      ensures var (after, sent, refused) := Answered(Self(), old(Tables()), requestId, accept);
              && Tables() == after && body == sent
              && error == if refused.Some? then refused else if published then None else Some(PublishFailed)
      ensures stateFile == if error.None? then Persisted(State()) else old(stateFile)
      ensures error == if requestId !in old(requests) then Some(RequestNotFound)
                       else if profile.None? || !unlocked then Some(NotInitialized)
                       else if old(requests)[requestId].status != PendingIn then Some(AlreadyHandled)
                       else if old(requests)[requestId].from !in knownUsers then Some(SenderUnknown)
                       else if !published then Some(PublishFailed) else None
      ensures error.None? || error in [Some(PublishFailed), Some(SenderUnknown)] ==>
                && var was := old(requests)[requestId];
                && requests == old(requests)[requestId := was.(status := if accept then Accepted else Rejected)]
                && friends == old(friends) + (if accept then {was.from} else {})
                && body == if error == Some(SenderUnknown) then None
                           else Some(Response(profile.value.userId, requestId, if accept then Accepted else Rejected))
      ensures error in [Some(RequestNotFound), Some(NotInitialized), Some(AlreadyHandled)] ==>
                requests == old(requests) && friends == old(friends) && body.None?
    {
      if requestId !in requests { return None, Some(RequestNotFound); }
      if profile.None? || !unlocked { return None, Some(NotInitialized); }
      var req := requests[requestId];
      if req.status != PendingIn { return None, Some(AlreadyHandled); }
      var status := Rejected;
      if accept {
        status := Accepted;
        friends := friends + {req.from};
      }
      req := req.(status := status);
      requests := requests[requestId := req];
      if req.from !in knownUsers { return None, Some(SenderUnknown); }
      body := Some(Response(profile.value.userId, requestId, status));
      if !published { return body, Some(PublishFailed); }
      SaveState();
      return body, None;
    }
  }

  lemma ConsumedNone(me: Me, r: Reader)
    ensures Consumed(me, r, []) == r && Taken(r.cursors, []) == []
  {
  }

  lemma ConsumedOneMore(me: Me, r: Reader, batch: seq<Record>, i: nat)
    requires i < |batch|
    ensures Consumed(me, r, batch[..i + 1]) == Delivered(me, Consumed(me, r, batch[..i]), batch[i])
    ensures var news := batch[i].offset > Cursor(Consumed(me, r, batch[..i]).cursors, batch[i].topic);
            Taken(r.cursors, batch[..i + 1]) == Taken(r.cursors, batch[..i]) + if news then [batch[i]] else []
  {
    assert batch[..i + 1][..i] == batch[..i];
    ConsumedIsFolded(me, r, batch[..i]);
  }
}
