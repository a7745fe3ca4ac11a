/** The social inbox (internal/social/manager.go): what a record read from a topic, or a call of the user,
    makes of the manager's tables. */
module Social {

  datatype Option<T> = None | Some(value: T)

  datatype Profile = Profile(userId: string, allowStrangers: bool)

  /** Whom the manager works for; the key material is there or not. */
  datatype Me = Me(profile: Option<Profile>, unlocked: bool)

  datatype KnownUser = KnownUser(
    userId: string,
    peerId: string,
    username: string,
    bio: string,
    avatarData: string,
    signPublicKey: string,
    boxPublicKey: string)

  /** A request's status; the one a friend_response carries may be any text. */
  datatype Status = PendingOut | PendingIn | Accepted | Rejected | Other(text: string)

  datatype Letter = Letter(
    fromName: string,
    walletAddress: string,
    helloSignature: string,
    message: string,
    way: string)

  datatype FriendRequest = FriendRequest(id: string, from: string, to: string, letter: Letter, status: Status)

  datatype DirectMessage = DirectMessage(id: string, from: string, to: string, content: string)

  /** The body of a secure envelope. Whether the wallet signed the challenge, and whether the name is
      absent or the wallet's, is decided by library calls. */
  datatype Body =
    | Request(from: string, requestId: string, letter: Letter, walletProven: bool, nameMatches: bool)
    | Response(from: string, requestId: string, status: Status)
    | Message(from: string, messageId: string, content: string)
    | OtherBody

  /** A secure envelope; the body is what its addressee decrypts, None if a check on the way fails. */
  datatype Envelope = Envelope(msgId: string, to: string, body: Option<Body>)

  datatype Payload =
    | Plain(about: KnownUser)
    | Secure(envelope: Envelope)
    | OtherPayload

  datatype Record = Record(topic: string, offset: nat, payload: Payload)

  /** The tables records are read into. */
  datatype Inbox = Inbox(
    knownUsers: map<string, KnownUser>,
    requests: map<string, FriendRequest>,
    friends: set<string>,
    dms: map<string, seq<DirectMessage>>,
    seen: set<string>)

  const BLANK_INBOX := Inbox(map[], map[], {}, map[], {})

  // ---------------------------------------------------------------------------
  // Topics
  // ---------------------------------------------------------------------------

  const TOPIC_PRESENCE := "app.social.v1.global.presence"

  function InboxTopic(userId: string): string {
    "app.social.v1.user." + userId + ".inbox"
  }

  /** strings.Split with the separator ".". */
  function Split(s: string): (parts: seq<string>)
    ensures parts != []
  {
    if s == "" then [""]
    else
      var rest := Split(s[1..]);
      if s[0] == '.' then [""] + rest else [[s[0]] + rest[0]] + rest[1..]
  }

  function UserIdFromInboxTopic(topic: string): (userId: string)
    ensures |Split(topic)| < 6 ==> userId == ""
  {
    var parts := Split(topic);
    if |parts| >= 6 then parts[4] else ""
  }

  lemma SplitStep(c: char, s: string)
    ensures Split([c] + s) == if c == '.' then [""] + Split(s) else [[c] + Split(s)[0]] + Split(s)[1..]
  {
    assert ([c] + s)[1..] == s;
  }

  lemma Regroup(c: char, p: seq<string>, q: seq<string>)
    requires p != []
    ensures [[c] + (p + q)[0]] + (p + q)[1..] == [[c] + p[0]] + p[1..] + q
    ensures [""] + (p + q) == [""] + p + q
  {
  }

  lemma Unshift(a: string, b: string)
    ensures a == "" ==> a + ['.'] + b == ['.'] + b
    ensures a != "" ==> [a[0]] + a[1..] == a && [a[0]] + (a[1..] + ['.'] + b) == a + ['.'] + b
  {
  }

  lemma {:induction false} SplitJoins(a: string, b: string)
    ensures Split(a + ['.'] + b) == Split(a) + Split(b)
    decreases |a|
  {
    Unshift(a, b);
    if a == "" {
      SplitStep('.', b);
      assert Split(a) == [""];
    } else {
      SplitLonger(a[0], a[1..], b);
      SplitJoins(a[1..], b);
    }
  }

  lemma SplitLonger(c: char, a: string, b: string)
    ensures Split(a + ['.'] + b) == Split(a) + Split(b) ==> Split([c] + (a + ['.'] + b)) == Split([c] + a) + Split(b)
  {
    hide Split;
    SplitStep(c, a);
    SplitStep(c, a + ['.'] + b);
    Regroup(c, Split(a), Split(b));
  }

  /** The first part has no dot, and it is everything exactly when there is none. */
  lemma {:induction false} SplitWhole(s: string)
    ensures '.' !in Split(s)[0]
    ensures '.' !in s ==> Split(s) == [s]
  {
    if s != "" {
      SplitStep(s[0], s[1..]);
      SplitWhole(s[1..]);
      assert s == [s[0]] + s[1..];
    }
  }

  /** The topic of an inbox gives the user id back exactly when the id has no dot; a dotted id is cut. */
  lemma InboxTopicRoundTrip(userId: string)
    ensures UserIdFromInboxTopic(InboxTopic(userId)) == Split(userId)[0]
    ensures UserIdFromInboxTopic(InboxTopic(userId)) == userId <==> '.' !in userId
  {
    InboxTopicParts(userId);
    SplitWhole(userId);
    hide Split, InboxTopic;
    var parts := ["app", "social", "v1", "user"] + Split(userId) + ["inbox"];
    assert parts[4] == Split(userId)[0];
    assert '.' in userId ==> Split(userId)[0] != userId;
  }

  lemma InboxTopicParts(userId: string)
    ensures Split(InboxTopic(userId)) == ["app", "social", "v1", "user"] + Split(userId) + ["inbox"]
  {
    SplitWhole("app");
    SplitWhole("social");
    SplitWhole("v1");
    SplitWhole("user");
    SplitWhole("inbox");
    hide Split;
    var t4 := userId + ['.'] + "inbox";
    var t3 := "user" + ['.'] + t4;
    var t2 := "v1" + ['.'] + t3;
    var t1 := "social" + ['.'] + t2;
    SplitJoins("app", t1);
    SplitJoins("social", t2);
    SplitJoins("v1", t3);
    SplitJoins("user", t4);
    SplitJoins(userId, "inbox");
    assert InboxTopic(userId) == "app" + ['.'] + t1 by { TopicSpelled(userId); }
  }

  lemma TopicSpelled(userId: string)
    ensures InboxTopic(userId)
            == "app" + ['.'] + ("social" + ['.'] + ("v1" + ['.'] + ("user" + ['.'] + (userId + ['.'] + "inbox"))))
  {
    assert "app.social.v1.user." == "app" + ['.'] + ("social" + ['.'] + ("v1" + ['.'] + ("user" + ['.'])));
  }

  lemma InboxIsNotPresence(userId: string)
    ensures InboxTopic(userId) != TOPIC_PRESENCE
  {
    assert InboxTopic(userId)[14] == 'u' && TOPIC_PRESENCE[14] == 'g';
  }

  // ---------------------------------------------------------------------------
  // Records
  // ---------------------------------------------------------------------------

  /** The announcement names a user, and somebody else. */
  predicate Announces(me: Me, about: KnownUser) {
    about.userId != "" && !(me.profile.Some? && about.userId == me.profile.value.userId)
  }

  function PresenceHeard(me: Me, s: Inbox, about: KnownUser): Inbox {
    if !Announces(me, about) then s else s.(knownUsers := s.knownUsers[about.userId := about])
  }

  function Conversation(s: Inbox, peer: string): seq<DirectMessage> {
    if peer in s.dms then s.dms[peer] else []
  }

  function RequestHeard(me: Profile, s: Inbox, from: string, requestId: string, letter: Letter,
                        walletProven: bool, nameMatches: bool): Inbox
  {
    if !me.allowStrangers && from !in s.friends then s
    else if !walletProven || !nameMatches then s
    else if requestId == "" || requestId in s.requests then s
    else
      var named := letter.(fromName := letter.walletAddress);
      s.(requests := s.requests[requestId := FriendRequest.FriendRequest(requestId, from, me.userId, named, PendingIn)])
  }

  function ResponseHeard(s: Inbox, from: string, requestId: string, status: Status): Inbox {
    s.(requests := if requestId in s.requests
                   then s.requests[requestId := s.requests[requestId].(status := status)] else s.requests,
       friends := if status == Accepted then s.friends + {from} else s.friends)
  }

  function MessageHeard(me: Profile, s: Inbox, from: string, messageId: string, content: string): Inbox {
    s.(dms := s.dms[from := Conversation(s, from) + [DirectMessage.DirectMessage(messageId, from, me.userId, content)]])
  }

  function BodyHeard(me: Profile, s: Inbox, body: Body): Inbox {
    match body
    case Request(from, id, letter, proven, matches) => RequestHeard(me, s, from, id, letter, proven, matches)
    case Response(from, id, status) => ResponseHeard(s, from, id, status)
    case Message(from, id, content) => MessageHeard(me, s, from, id, content)
    case OtherBody => s
  }

  /** The envelope is for this user, new, and opens. */
  predicate Opens(me: Me, s: Inbox, e: Envelope) {
    && me.unlocked && me.profile.Some? && me.profile.value.userId != "" && e.to == me.profile.value.userId
    && e.msgId != "" && e.msgId !in s.seen && e.body.Some?
  }

  function SecureHeard(me: Me, s: Inbox, e: Envelope): Inbox {
    if !Opens(me, s, e) then s
    else BodyHeard(me.profile.value, s.(seen := s.seen + {e.msgId}), e.body.value)
  }

  /** The handler comes to its end, where it writes the state file: a request that is turned down does not. */
  predicate SecureSaves(me: Me, s: Inbox, e: Envelope) {
    Opens(me, s, e) && (e.body.value.Request? ==> SecureHeard(me, s, e).requests != s.requests)
  }

  function Processed(me: Me, s: Inbox, topic: string, payload: Payload): Inbox {
    match payload
    case Plain(about) => if topic == TOPIC_PRESENCE then PresenceHeard(me, s, about) else s
    case Secure(e) => SecureHeard(me, s, e)
    case OtherPayload => s
  }

  predicate RecordSaves(me: Me, s: Inbox, topic: string, payload: Payload) {
    match payload
    case Plain(about) => topic == TOPIC_PRESENCE && Announces(me, about)
    case Secure(e) => SecureSaves(me, s, e)
    case OtherPayload => false
  }

  // ---------------------------------------------------------------------------
  // Calls
  // ---------------------------------------------------------------------------

  datatype Error =
    | NotInitialized | WalletRequired | WalletMismatch | InvalidWalletSignature | TargetUnknown
    | RequestNotFound | AlreadyHandled | SenderUnknown | PublishFailed

  /** What the library calls say of the wallet a request is sent with. */
  datatype Wallet = Wallet(isAddress: bool, isMine: bool, proven: bool)

  predicate Initialized(me: Me) {
    me.profile.Some? && me.unlocked
  }

  /** The inbox after SendFriendRequest and the body put on the way, or why the call fails. */
  function Asked(me: Me, s: Inbox, target: string, letter: Letter, wallet: Wallet, requestId: string)
    : (Inbox, Option<Body>, Option<Error>)
  {
    if !Initialized(me) then (s, None, Some(NotInitialized))
    else if !wallet.isAddress then (s, None, Some(WalletRequired))
    else if !wallet.isMine then (s, None, Some(WalletMismatch))
    else if !wallet.proven then (s, None, Some(InvalidWalletSignature))
    else if target !in s.knownUsers then (s, None, Some(TargetUnknown))
    else
      var from := me.profile.value.userId;
      var req := FriendRequest.FriendRequest(requestId, from, target, letter, PendingOut);
      (s.(requests := s.requests[requestId := req]),
       Some(Request(from, requestId, letter, true, true)), None)
  }

  /** The inbox after RespondFriendRequest and the body put on the way, or why the call fails. The decision
      is recorded even when the sender of the request is not known and no response can be sent. */
  function Answered(me: Me, s: Inbox, requestId: string, accept: bool): (Inbox, Option<Body>, Option<Error>) {
    if requestId !in s.requests then (s, None, Some(RequestNotFound))
    else if !Initialized(me) then (s, None, Some(NotInitialized))
    else
      var req := s.requests[requestId];
      if req.status != PendingIn then (s, None, Some(AlreadyHandled))
      else
        var status := if accept then Accepted else Rejected;
        var after := s.(requests := s.requests[requestId := req.(status := status)],
                        friends := if accept then s.friends + {req.from} else s.friends);
        if req.from !in s.knownUsers then (after, None, Some(SenderUnknown))
        else (after, Some(Response(me.profile.value.userId, requestId, status)), None)
  }

  /** The envelope a body travels in; the addressee is read off the topic. */
  function Posted(msgId: string, userId: string, body: Body): Envelope {
    Envelope.Envelope(msgId, UserIdFromInboxTopic(InboxTopic(userId)), Some(body))
  }
}
