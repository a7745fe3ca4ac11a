/** The friend handshake (internal/social/manager.go) between any number of users who run this program, over a
    network that may lose, repeat, delay and reorder what is published, or refuse to publish it. A manager's tables
    are kept in a state file, which a call that comes back early does not write and a restart reads. Request
    ids are unique. */
module SocialHandshake {
  import opened Social

  /** A manager's tables, and what its state file holds of them. */
  datatype Node = Node(me: Me, inbox: Inbox, saved: Inbox)

  /** issued is a record, kept for the proofs only, of who asked whom under which request id. */
  datatype Net = Net(nodes: map<string, Node>, sent: set<Envelope>, issued: map<string, (string, string)>)

  /** A call is reported when its publication is said to have gone out and it comes to write the state file. What
      is not reported may still have gone out. Read is the reading of any other record. */
  datatype Step =
    | Ask(user: string, target: string, letter: Letter, wallet: Wallet, requestId: string, msgId: string,
          reported: bool)
    | Answer(user: string, requestId: string, accept: bool, msgId: string, reported: bool)
    | Deliver(user: string, envelope: Envelope)
    | Discover(user: string, about: KnownUser)
    | Read(user: string)
    | Restart(user: string)

  /** Everything published may be delivered; a publication that fails is one that never is. */
  function Out(msgId: string, to: string, body: Option<Body>): set<Envelope> {
    if body.Some? then {Posted(msgId, to, body.value)} else {}
  }

  /** The node with new tables, which the state file gets too or does not. The seen ids are not saved. */
  function Updated(n: Node, inbox: Inbox, written: bool): Node {
    n.(inbox := inbox, saved := if written then inbox.(seen := {}) else n.saved)
  }

  function Next(net: Net, step: Step): Net {
    if step.user !in net.nodes then net
    else
      var n := net.nodes[step.user];
      match step
      case Ask(user, target, letter, wallet, id, msgId, reported) =>
        if id in net.issued || '.' in target then net
        else
          var (after, body, _) := Asked(n.me, n.inbox, target, letter, wallet, id);
          Net(net.nodes[user := Updated(n, after, body.Some? && reported)], net.sent + Out(msgId, target, body),
              if body.Some? then net.issued[id := (user, target)] else net.issued)
      case Answer(user, id, accept, msgId, reported) =>
        var (after, body, _) := Answered(n.me, n.inbox, id, accept);
        var to := if id in n.inbox.requests then n.inbox.requests[id].from else "";
        net.(nodes := net.nodes[user := Updated(n, after, body.Some? && reported)],
             sent := net.sent + Out(msgId, to, body))
      case Deliver(user, e) =>
        if e !in net.sent then net
        else net.(nodes := net.nodes[user := Updated(n, SecureHeard(n.me, n.inbox, e), true)])
      case Discover(user, about) =>
        net.(nodes := net.nodes[user := Updated(n, PresenceHeard(n.me, n.inbox, about), true)])
      case Read(user) =>
        net.(nodes := net.nodes[user := Updated(n, n.inbox, true)])
      case Restart(user) =>
        net.(nodes := net.nodes[user := n.(inbox := n.saved.(seen := {}))])
  }

  function Run(net: Net, steps: seq<Step>): Net {
    if steps == [] then net else Next(Run(net, steps[..|steps| - 1]), steps[|steps| - 1])
  }

  /** Users under their own ids, as they are generated: not empty and without dots. */
  predicate Named(net: Net) {
    forall u | u in net.nodes ::
      && u != "" && '.' !in u
      && (net.nodes[u].me.profile.Some? ==> net.nodes[u].me.profile.value.userId == u)
  }

  predicate Start(net: Net) {
    && Named(net) && net.sent == {} && net.issued == map[]
    && (forall u | u in net.nodes ::
          && net.nodes[u].inbox.requests == net.nodes[u].saved.requests == map[]
          && net.nodes[u].inbox.friends == net.nodes[u].saved.friends == {})
  }

  // ---------------------------------------------------------------------------
  // What every run keeps
  // ---------------------------------------------------------------------------

  predicate Settled(status: Status) {
    status == Accepted || status == Rejected
  }

  /** What a user's table holds under a request id. */
  function Entry(net: Net, u: string, id: string): Option<FriendRequest> {
    if u in net.nodes && id in net.nodes[u].inbox.requests then Some(net.nodes[u].inbox.requests[id]) else None
  }

  predicate HasAccepted(net: Net, u: string, id: string) {
    Entry(net, u, id).Some? && Entry(net, u, id).value.status == Accepted
  }

  predicate Befriends(net: Net, u: string, v: string) {
    u in net.nodes && v in net.nodes[u].inbox.friends
  }

  /** The state of one handshake: a asked b under this id. The asker's entry is lost if it restarts before it has
      written the file. */
  ghost predicate Handshake(net: Net, id: string, a: string, b: string) {
    && a in net.nodes
    && (forall u | u != a && u != b :: Entry(net, u, id).None?)
    && (Entry(net, a, id).Some? ==>
          && Entry(net, a, id).value.to == b
          && (a != b ==> Settled(Entry(net, a, id).value.status) || Entry(net, a, id).value.status == PendingOut)
          && (Settled(Entry(net, a, id).value.status) ==>
                Entry(net, b, id).Some? && Entry(net, b, id).value.status == Entry(net, a, id).value.status))
    && (Entry(net, b, id).Some? ==>
          && Entry(net, b, id).value.from == a
          && (a != b ==> Settled(Entry(net, b, id).value.status) || Entry(net, b, id).value.status == PendingIn))
    && (HasAccepted(net, a, id) ==> Befriends(net, a, b))
    && (HasAccepted(net, b, id) ==> Befriends(net, b, a))
  }

  ghost predicate Handshakes(net: Net) {
    && (forall id | id in net.issued :: Handshake(net, id, net.issued[id].0, net.issued[id].1))
    && (forall u, id | id !in net.issued :: Entry(net, u, id).None?)
  }

  /** An envelope on the way tells the truth: a request was asked, a response was given. */
  predicate Truthful(net: Net, e: Envelope) {
    && e.body.Some?
    && (e.body.value.Request? ==>
          e.body.value.requestId in net.issued && net.issued[e.body.value.requestId] == (e.body.value.from, e.to))
    && (e.body.value.Response? ==>
          && e.body.value.requestId in net.issued && net.issued[e.body.value.requestId] == (e.to, e.body.value.from)
          && Settled(e.body.value.status)
          && Entry(net, e.body.value.from, e.body.value.requestId).Some?
          && Entry(net, e.body.value.from, e.body.value.requestId).value.status == e.body.value.status)
    && (e.body.value.Request? || e.body.value.Response?)
  }

  ghost predicate MailTruthful(net: Net) {
    forall e | e in net.sent :: Truthful(net, e)
  }

  /** One of the two asked the other, who accepted. */
  ghost predicate Earned(net: Net, u: string, v: string) {
    exists id | id in net.issued ::
      (net.issued[id] == (u, v) || net.issued[id] == (v, u)) && HasAccepted(net, net.issued[id].1, id)
  }

  ghost predicate FriendsEarned(net: Net) {
    forall u, v | Befriends(net, u, v) :: Earned(net, u, v)
  }

  /** What holds of the tables and the mail. */
  ghost predicate Sound(net: Net) {
    Named(net) && Handshakes(net) && MailTruthful(net) && FriendsEarned(net)
  }

  /** A decision on this request that the state file does not have. */
  predicate Undecided(n: Node, id: string) {
    && id in n.saved.requests && n.saved.requests[id].status == PendingIn
    && id in n.inbox.requests && Settled(n.inbox.requests[id].status)
    && n.inbox.requests[id] == n.saved.requests[id].(status := n.inbox.requests[id].status)
  }

  ghost predicate Unwritten(n: Node) {
    exists id :: Undecided(n, id)
  }

  /** How far a state file can be behind: a decision may be missing with the friend it made, and a request just sent. */
  ghost predicate Behind(n: Node) {
    && (forall id | id in n.saved.requests ::
          Undecided(n, id) || (id in n.inbox.requests && n.inbox.requests[id] == n.saved.requests[id]))
    && (forall id | id in n.inbox.requests && id !in n.saved.requests :: n.inbox.requests[id].status == PendingOut)
    && n.saved.friends <= n.inbox.friends
    && (n.saved.friends == n.inbox.friends || Unwritten(n))
  }

  ghost predicate Inv(net: Net) {
    Sound(net) && forall u | u in net.nodes :: Behind(net.nodes[u])
  }

  /** What was decided stays decided. */
  ghost predicate DecisionsKept(net: Net, after: Net) {
    forall u, id | Entry(net, u, id).Some? && Settled(Entry(net, u, id).value.status) ::
      Entry(after, u, id) == Entry(net, u, id)
  }

  /** Nothing is forgotten: requests asked, decisions taken, friends made, envelopes sent. */
  ghost predicate Advances(net: Net, after: Net) {
    && after.nodes.Keys == net.nodes.Keys
    && (forall id | id in net.issued :: id in after.issued && after.issued[id] == net.issued[id])
    && DecisionsKept(net, after)
    && (forall u, v | Befriends(net, u, v) :: Befriends(after, u, v))
    && net.sent <= after.sent
  }

  /** Only this entry may have changed. */
  ghost predicate OnlyEntry(net: Net, after: Net, u: string, id: string) {
    forall w, i | w != u || i != id :: Entry(after, w, i) == Entry(net, w, i)
  }

  lemma HandshakeStays(net: Net, after: Net, id: string, a: string, b: string)
    requires Handshake(net, id, a, b) && Advances(net, after)
    requires forall u :: Entry(after, u, id) == Entry(net, u, id)
    ensures Handshake(after, id, a, b)
  {
  }

  lemma TruthStays(net: Net, after: Net, e: Envelope)
    requires Truthful(net, e) && Advances(net, after)
    ensures Truthful(after, e)
  {
  }

  lemma EarnedStays(net: Net, after: Net, u: string, v: string)
    requires Earned(net, u, v) && Advances(net, after)
    ensures Earned(after, u, v)
  {
    var id :| id in net.issued &&
      (net.issued[id] == (u, v) || net.issued[id] == (v, u)) && HasAccepted(net, net.issued[id].1, id);
    assert HasAccepted(after, after.issued[id].1, id);
  }

  /** To keep what every run keeps, a step that changes one entry has to answer for its handshake, for what it
      sends and for the friend it makes. */
  lemma StepKeeps(net: Net, after: Net, u: string, id: string, posted: set<Envelope>, made: set<string>)
    requires Sound(net) && Named(after) && Advances(net, after) && OnlyEntry(net, after, u, id)
    requires after.issued.Keys <= net.issued.Keys + {id} && id in after.issued
    requires Handshake(after, id, after.issued[id].0, after.issued[id].1)
    requires after.sent == net.sent + posted && forall e | e in posted :: Truthful(after, e)
    requires forall w, v | Befriends(after, w, v) && !Befriends(net, w, v) :: w == u && v in made
    requires forall v | v in made :: Earned(after, u, v)
    ensures Sound(after)
  {
    forall i | i in after.issued ensures Handshake(after, i, after.issued[i].0, after.issued[i].1) {
      if i != id {
        HandshakeStays(net, after, i, net.issued[i].0, net.issued[i].1);
      }
    }
    forall w, i | i !in after.issued ensures Entry(after, w, i).None? {
      assert Entry(net, w, i).None?;
    }
    forall e | e in after.sent ensures Truthful(after, e) {
      if e in net.sent { TruthStays(net, after, e); }
    }
    forall w, v | Befriends(after, w, v) ensures Earned(after, w, v) {
      if Befriends(net, w, v) { EarnedStays(net, after, w, v); }
    }
  }

  /** A step that touches no entry and makes no friend. */
  lemma QuietKeeps(net: Net, after: Net)
    requires Sound(net) && Named(after) && Advances(net, after) && after.issued == net.issued && after.sent == net.sent
    requires forall u, id :: Entry(after, u, id) == Entry(net, u, id)
    requires forall u, v | Befriends(after, u, v) :: Befriends(net, u, v)
    ensures Sound(after)
  {
    forall i | i in after.issued ensures Handshake(after, i, after.issued[i].0, after.issued[i].1) {
      HandshakeStays(net, after, i, net.issued[i].0, net.issued[i].1);
    }
    forall e | e in after.sent ensures Truthful(after, e) {
      TruthStays(net, after, e);
    }
    forall w, v | Befriends(after, w, v) ensures Earned(after, w, v) {
      EarnedStays(net, after, w, v);
    }
  }

  // ---------------------------------------------------------------------------
  // Steps
  // ---------------------------------------------------------------------------

  /** The user's tables are now these, whatever its state file holds. */
  predicate OnlyInbox(net: Net, after: Net, u: string, inbox: Inbox)
    requires u in net.nodes
  {
    u in after.nodes && after.nodes == net.nodes[u := Node(net.nodes[u].me, inbox, after.nodes[u].saved)]
  }

  /** Writing one user's inbox back with one entry changed. */
  lemma Rewritten(net: Net, after: Net, u: string, inbox: Inbox, id: string)
    requires Named(net) && u in net.nodes && OnlyInbox(net, after, u, inbox)
    requires inbox.requests - {id} == net.nodes[u].inbox.requests - {id}
    ensures Named(after) && after.nodes.Keys == net.nodes.Keys && OnlyEntry(net, after, u, id)
    ensures Entry(after, u, id) == if id in inbox.requests then Some(inbox.requests[id]) else None
    ensures forall w, v :: Befriends(after, w, v) <==> if w == u then v in inbox.friends else Befriends(net, w, v)
    ensures forall v :: Befriends(net, u, v) <==> v in net.nodes[u].inbox.friends
  {
    var before := net.nodes[u].inbox.requests;
    forall w, i | w != u || i != id ensures Entry(after, w, i) == Entry(net, w, i) {
      if w == u {
        assert i in before <==> i in before - {id};
        assert i in inbox.requests <==> i in inbox.requests - {id};
        assert i in before ==> before[i] == (before - {id})[i];
        assert i in inbox.requests ==> inbox.requests[i] == (inbox.requests - {id})[i];
      }
    }
  }

  lemma SameTables(net: Net, after: Net, u: string, inbox: Inbox)
    requires Named(net) && u in net.nodes && OnlyInbox(net, after, u, inbox)
    requires inbox.requests == net.nodes[u].inbox.requests && inbox.friends == net.nodes[u].inbox.friends
    requires after.issued == net.issued && after.sent == net.sent
    ensures Named(after) && Advances(net, after)
    ensures forall w, i :: Entry(after, w, i) == Entry(net, w, i)
    ensures forall w, v | Befriends(after, w, v) :: Befriends(net, w, v)
  {
  }

  lemma ChangeAdvances(net: Net, after: Net, u: string, id: string)
    requires after.nodes.Keys == net.nodes.Keys && OnlyEntry(net, after, u, id) && net.sent <= after.sent
    requires forall i | i in net.issued :: i in after.issued && after.issued[i] == net.issued[i]
    requires Entry(net, u, id).Some? ==>
               !Settled(Entry(net, u, id).value.status) || Entry(after, u, id) == Entry(net, u, id)
    requires forall w, v | Befriends(net, w, v) :: Befriends(after, w, v)
    ensures Advances(net, after)
  {
    hide Entry, Befriends;
  }

  lemma AskKeeps(net: Net, u: string, target: string, letter: Letter, wallet: Wallet, id: string, msgId: string,
                 reported: bool)
    requires Sound(net) && u in net.nodes && id !in net.issued && '.' !in target
    ensures var after := Next(net, Ask(u, target, letter, wallet, id, msgId, reported));
            Sound(after) && Advances(net, after)
  {
    hide Sound, Advances, InboxTopic, UserIdFromInboxTopic;
    var n := net.nodes[u];
    var after := Next(net, Ask(u, target, letter, wallet, id, msgId, reported));
    var (inbox, body, _) := Asked(n.me, n.inbox, target, letter, wallet, id);
    if body.None? {
      assert after.nodes == net.nodes && after.sent == net.sent;
      NothingKeeps(net, after);
    } else {
      InboxTopicRoundTrip(target);
      NamedHere(net, u);
      AskFits(net, after, u, target, inbox, inbox.requests[id], id, Out(msgId, target, body));
    }
  }

  lemma NamedHere(net: Net, u: string)
    requires Sound(net) && u in net.nodes
    ensures net.nodes[u].me.profile.Some? ==> net.nodes[u].me.profile.value.userId == u
  {
  }

  lemma NothingKeeps(net: Net, after: Net)
    requires Sound(net) && after == net
    ensures Sound(after) && Advances(net, after)
  {
  }

  /** The change asking makes: the asker's entry, and the request under way. */
  lemma AskFits(net: Net, after: Net, a: string, b: string, inbox: Inbox, req: FriendRequest, id: string,
          posted: set<Envelope>)
    requires Sound(net) && a in net.nodes && id !in net.issued
    requires OnlyInbox(net, after, a, inbox) && after.sent == net.sent + posted
    requires after.issued == net.issued[id := (a, b)]
    requires req.from == a && req.to == b && req.status == PendingOut
    requires inbox.requests == net.nodes[a].inbox.requests[id := req] && inbox.friends == net.nodes[a].inbox.friends
    requires forall e | e in posted :: e.to == b && e.body.Some? && e.body.value.Request?
                                       && e.body.value.from == a && e.body.value.requestId == id
    ensures Sound(after) && Advances(net, after)
  {
    assert inbox.requests - {id} == net.nodes[a].inbox.requests - {id};
    Rewritten(net, after, a, inbox, id);
    hide Entry, Befriends, Named, OnlyInbox;
    assert forall u :: Entry(net, u, id).None?;
    ChangeAdvances(net, after, a, id);
    hide OnlyEntry, Advances;
    assert Handshake(after, id, a, b) by { FreshHandshake(net, after, a, b, id); }
    hide Handshakes, FriendsEarned, MailTruthful, Handshake;
    StepKeeps(net, after, a, id, posted, {});
  }

  lemma FreshHandshake(net: Net, after: Net, a: string, b: string, id: string)
    requires OnlyEntry(net, after, a, id) && forall u :: Entry(net, u, id).None?
    requires Entry(after, a, id).Some? && Entry(after, a, id).value.status == PendingOut && a in after.nodes
    requires Entry(after, a, id).value.from == a && Entry(after, a, id).value.to == b
    ensures Handshake(after, id, a, b)
  {
    hide Entry, Befriends;
  }

  /** Who answers was asked, by the user the request names, who does not know the answer yet. */
  lemma AnswererWasAsked(net: Net, u: string, id: string)
    requires Sound(net) && Entry(net, u, id).Some? && Entry(net, u, id).value.status == PendingIn
    ensures var a := Entry(net, u, id).value.from;
            && id in net.issued && net.issued[id] == (a, u) && a in net.nodes && '.' !in a
            && Named(net) && u in net.nodes && Handshake(net, id, a, u)
            && (Entry(net, a, id).Some? ==> !Settled(Entry(net, a, id).value.status))
  {
    assert id in net.issued;
    assert Handshake(net, id, net.issued[id].0, net.issued[id].1);
  }

  lemma AnswerKeeps(net: Net, u: string, id: string, accept: bool, msgId: string, reported: bool)
    requires Sound(net) && u in net.nodes
    ensures var after := Next(net, Answer(u, id, accept, msgId, reported));
            Sound(after) && Advances(net, after)
  {
    hide Sound, Advances, InboxTopic, UserIdFromInboxTopic;
    var n := net.nodes[u];
    var after := Next(net, Answer(u, id, accept, msgId, reported));
    var (inbox, body, error) := Answered(n.me, n.inbox, id, accept);
    if id !in n.inbox.requests || !Initialized(n.me) || n.inbox.requests[id].status != PendingIn {
      assert inbox == n.inbox && after.nodes == net.nodes && after.sent == net.sent;
      NothingKeeps(net, after);
    } else {
      var a := n.inbox.requests[id].from;
      AnswererWasAsked(net, u, id);
      NamedHere(net, u);
      InboxTopicRoundTrip(a);
      AnswerFits(net, after, u, inbox, n.inbox.requests[id], id, if accept then Accepted else Rejected,
                 Out(msgId, a, body));
    }
  }

  /** The change an answer makes. */
  lemma AnswerFits(net: Net, after: Net, b: string, inbox: Inbox, req: FriendRequest, id: string, status: Status,
                   posted: set<Envelope>)
    requires Sound(net) && Entry(net, b, id) == Some(req) && req.status == PendingIn && Settled(status)
    requires OnlyInbox(net, after, b, inbox) && after.issued == net.issued && after.sent == net.sent + posted
    requires inbox.requests == net.nodes[b].inbox.requests[id := req.(status := status)]
    requires inbox.friends == net.nodes[b].inbox.friends + (if status == Accepted then {req.from} else {})
    requires forall e | e in posted :: e.to == req.from && e.body == Some(Response(b, id, status))
    ensures Sound(after) && Advances(net, after)
  {
    hide Sound, Handshake, Entry, Befriends, Named, OnlyInbox, OnlyEntry, Advances, Earned;
    var a := req.from;
    AnswererWasAsked(net, b, id);
    RequestsApart(net.nodes[b].inbox.requests, id, req.(status := status));
    Rewritten(net, after, b, inbox, id);
    BefriendsKept(net, after, b, inbox);
    ChangeAdvances(net, after, b, id);
    AnsweredHandshake(net, after, a, b, id, status);
    var made := if status == Accepted then {a} else {};
    if status == Accepted {
      MadeIsEarned(after, id, b, a);
    }
    StepKeeps(net, after, b, id, posted, made);
  }

  lemma RequestsApart(requests: map<string, FriendRequest>, id: string, req: FriendRequest)
    ensures requests[id := req] - {id} == requests - {id}
  {
  }

  lemma BefriendsKept(net: Net, after: Net, u: string, inbox: Inbox)
    requires u in net.nodes && net.nodes[u].inbox.friends <= inbox.friends
    requires forall w, v :: Befriends(after, w, v) <==> if w == u then v in inbox.friends else Befriends(net, w, v)
    ensures forall w, v | Befriends(net, w, v) :: Befriends(after, w, v)
  {
  }

  lemma MadeIsEarned(net: Net, id: string, u: string, v: string)
    requires id in net.issued && (net.issued[id] == (u, v) || net.issued[id] == (v, u))
    requires HasAccepted(net, net.issued[id].1, id)
    ensures Earned(net, u, v)
  {
  }

  lemma AnsweredHandshake(net: Net, after: Net, a: string, b: string, id: string, status: Status)
    requires Handshake(net, id, a, b) && OnlyEntry(net, after, b, id) && Settled(status) && a in after.nodes
    requires Entry(net, b, id).Some? && Entry(net, b, id).value.status == PendingIn
    requires Entry(after, b, id) == Some(Entry(net, b, id).value.(status := status))
    requires Entry(net, a, id).Some? ==> !Settled(Entry(net, a, id).value.status)
    requires status == Accepted ==> Befriends(after, b, a)
    ensures Handshake(after, id, a, b)
  {
    hide Entry, Befriends;
    assert a != b ==> Entry(after, a, id) == Entry(net, a, id);
  }

  lemma DeliverKeeps(net: Net, u: string, e: Envelope)
    requires Sound(net) && u in net.nodes && e in net.sent
    ensures var after := Next(net, Deliver(u, e));
            Sound(after) && Advances(net, after)
  {
    var n := net.nodes[u];
    var after := Next(net, Deliver(u, e));
    var inbox := SecureHeard(n.me, n.inbox, e);
    assert Truthful(net, e);
    NamedHere(net, u);
    hide Sound, Advances;
    if !Opens(n.me, n.inbox, e) {
      QuietWriteKeeps(net, after, u, inbox);
    } else if e.body.value.Request? {
      var id := e.body.value.requestId;
      if inbox.requests == n.inbox.requests {
        QuietWriteKeeps(net, after, u, inbox);
      } else {
        assert id !in n.inbox.requests;
        RequestFits(net, after, u, inbox, inbox.requests[id], id, e.body.value.from);
      }
    } else {
      ResponseFits(net, after, e.body.value.from, u, inbox, e.body.value.requestId, e.body.value.status);
    }
  }

  lemma QuietWriteKeeps(net: Net, after: Net, u: string, inbox: Inbox)
    requires Sound(net) && u in net.nodes && OnlyInbox(net, after, u, inbox)
    requires inbox.requests == net.nodes[u].inbox.requests && inbox.friends == net.nodes[u].inbox.friends
    requires after.issued == net.issued && after.sent == net.sent
    ensures Sound(after) && Advances(net, after)
  {
    SameTables(net, after, u, inbox);
    hide Entry, Befriends, Named, OnlyInbox, Advances, Handshakes, FriendsEarned, MailTruthful;
    QuietKeeps(net, after);
  }

  /** The change a request makes where it is new. */
  lemma RequestFits(net: Net, after: Net, b: string, inbox: Inbox, req: FriendRequest, id: string, a: string)
    requires Sound(net) && b in net.nodes && id !in net.nodes[b].inbox.requests
    requires id in net.issued && net.issued[id] == (a, b)
    requires OnlyInbox(net, after, b, inbox) && after.issued == net.issued && after.sent == net.sent
    requires req.from == a && req.to == b && req.status == PendingIn
    requires inbox.requests == net.nodes[b].inbox.requests[id := req] && inbox.friends == net.nodes[b].inbox.friends
    ensures Sound(after) && Advances(net, after)
  {
    assert inbox.requests - {id} == net.nodes[b].inbox.requests - {id};
    assert Entry(net, b, id).None?;
    Rewritten(net, after, b, inbox, id);
    hide Entry, Befriends, Named, OnlyInbox;
    ChangeAdvances(net, after, b, id);
    hide OnlyEntry, Advances;
    assert Handshake(net, id, a, b);
    RequestedHandshake(net, after, a, b, id);
    hide Handshakes, FriendsEarned, MailTruthful, Handshake;
    StepKeeps(net, after, b, id, {}, {});
  }

  lemma RequestedHandshake(net: Net, after: Net, a: string, b: string, id: string)
    requires Handshake(net, id, a, b) && OnlyEntry(net, after, b, id) && Entry(net, b, id).None? && a in after.nodes
    requires Entry(after, b, id).Some? && Entry(after, b, id).value.status == PendingIn
    requires Entry(after, b, id).value.from == a && Entry(after, b, id).value.to == b
    requires forall w, v | Befriends(net, w, v) :: Befriends(after, w, v)
    ensures Handshake(after, id, a, b)
  {
    hide Entry, Befriends;
    assert a != b ==> Entry(after, a, id) == Entry(net, a, id);
  }

  /** The change a response makes: it tells the asker what the other one has decided. */
  lemma ResponseFits(net: Net, after: Net, b: string, a: string, inbox: Inbox, id: string, status: Status)
    requires Sound(net) && a in net.nodes && Settled(status)
    requires id in net.issued && net.issued[id] == (a, b)
    requires Entry(net, b, id).Some? && Entry(net, b, id).value.status == status
    requires OnlyInbox(net, after, a, inbox) && after.issued == net.issued && after.sent == net.sent
    requires inbox.requests == (if id in net.nodes[a].inbox.requests
               then net.nodes[a].inbox.requests[id := net.nodes[a].inbox.requests[id].(status := status)]
               else net.nodes[a].inbox.requests)
    requires inbox.friends == net.nodes[a].inbox.friends + (if status == Accepted then {b} else {})
    ensures Sound(after) && Advances(net, after)
  {
    hide Sound, Handshake, Entry, Befriends, Named, OnlyInbox, OnlyEntry, Advances, Earned;
    HandshakeHere(net, id);
    if id in net.nodes[a].inbox.requests {
      RequestsApart(net.nodes[a].inbox.requests, id, inbox.requests[id]);
    }
    Rewritten(net, after, a, inbox, id);
    EntryHere(net, a, id);
    BefriendsKept(net, after, a, inbox);
    ToldHandshake(net, after, a, b, id, status);
    ChangeAdvances(net, after, a, id);
    var made := if status == Accepted then {b} else {};
    if status == Accepted {
      MadeIsEarned(after, id, a, b);
    }
    StepKeeps(net, after, a, id, {}, made);
  }

  lemma HandshakeHere(net: Net, id: string)
    requires Sound(net) && id in net.issued
    ensures Named(net) && Handshake(net, id, net.issued[id].0, net.issued[id].1)
  {
  }

  lemma EntryHere(net: Net, u: string, id: string)
    requires u in net.nodes
    ensures Entry(net, u, id)
            == if id in net.nodes[u].inbox.requests then Some(net.nodes[u].inbox.requests[id]) else None
  {
  }

  function Retold(entry: Option<FriendRequest>, status: Status): Option<FriendRequest> {
    if entry.Some? then Some(entry.value.(status := status)) else None
  }

  lemma ToldHandshake(net: Net, after: Net, a: string, b: string, id: string, status: Status)
    requires Handshake(net, id, a, b) && OnlyEntry(net, after, a, id) && Settled(status) && a in after.nodes
    requires Entry(net, b, id).Some? && Entry(net, b, id).value.status == status
    requires Entry(after, a, id) == Retold(Entry(net, a, id), status)
    requires status == Accepted ==> Befriends(after, a, b)
    requires forall w, v | Befriends(net, w, v) :: Befriends(after, w, v)
    ensures Handshake(after, id, a, b)
    ensures Entry(after, b, id) == Entry(net, b, id)
    ensures Entry(net, a, id).Some? && Settled(Entry(net, a, id).value.status)
        ==> Entry(after, a, id) == Entry(net, a, id)
  {
    hide Entry, Befriends;
    assert Entry(after, b, id) == Entry(net, b, id);
  }

  // ---------------------------------------------------------------------------
  // State files
  // ---------------------------------------------------------------------------

  /** The step writes its user's state file. */
  predicate Writes(net: Net, step: Step)
    requires step.user in net.nodes
  {
    var n := net.nodes[step.user];
    match step
    case Ask(_, target, letter, wallet, id, _, reported) =>
      reported && id !in net.issued && '.' !in target && Asked(n.me, n.inbox, target, letter, wallet, id).1.Some?
    case Answer(_, id, accept, _, reported) => reported && Answered(n.me, n.inbox, id, accept).1.Some?
    case Deliver(_, e) => e in net.sent
    case Discover(_, _) => true
    case Read(_) => true
    case Restart(_) => false
  }

  /** The step is an answer to a request that waits for one. */
  predicate Decides(net: Net, step: Step)
    requires step.user in net.nodes
  {
    var n := net.nodes[step.user];
    && step.Answer? && step.requestId in n.inbox.requests && Initialized(n.me)
    && n.inbox.requests[step.requestId].status == PendingIn
  }

  lemma WrittenIsBehind(n: Node)
    requires n.saved.requests == n.inbox.requests && n.saved.friends == n.inbox.friends
    ensures Behind(n) && !Unwritten(n)
  {
  }

  lemma AskedIsBehind(n: Node, inbox: Inbox, id: string, req: FriendRequest)
    requires Behind(n) && id !in n.inbox.requests && req.status == PendingOut
    requires inbox.requests == n.inbox.requests[id := req] && inbox.friends == n.inbox.friends
    ensures Behind(n.(inbox := inbox)) && (Unwritten(n.(inbox := inbox)) <==> Unwritten(n))
  {
    var after := n.(inbox := inbox);
    assert id !in n.saved.requests;
    assert forall i :: Undecided(after, i) <==> Undecided(n, i);
  }

  lemma AnsweredIsBehind(n: Node, inbox: Inbox, id: string, status: Status, made: set<string>)
    requires Behind(n) && id in n.inbox.requests && n.inbox.requests[id].status == PendingIn && Settled(status)
    requires inbox.requests == n.inbox.requests[id := n.inbox.requests[id].(status := status)]
    requires inbox.friends == n.inbox.friends + made
    ensures Behind(n.(inbox := inbox)) && Unwritten(n.(inbox := inbox))
  {
    var after := n.(inbox := inbox);
    assert id in n.saved.requests && n.saved.requests[id] == n.inbox.requests[id];
    assert Undecided(after, id);
    assert forall i | i != id :: Undecided(after, i) <==> Undecided(n, i);
  }

  /** What a step leaves of its user's state file: it stays behind by no more than decisions and requests sent, and a
      decision is missing exactly when it was before, or is taken now, and nothing is written. */
  lemma StepIsBehind(net: Net, step: Step)
    requires Sound(net) && step.user in net.nodes && Behind(net.nodes[step.user])
    ensures var n, after := net.nodes[step.user], Next(net, step).nodes[step.user];
            && Behind(after)
            && (Unwritten(after) <==> !step.Restart? && !Writes(net, step) && (Unwritten(n) || Decides(net, step)))
  {
    hide Sound, Behind, Unwritten, Posted;
    var n := net.nodes[step.user];
    var after := Next(net, step).nodes[step.user];
    if step.Restart? || Writes(net, step) {
      WrittenIsBehind(after);
    } else if Decides(net, step) {
      var req := n.inbox.requests[step.requestId];
      AnsweredIsBehind(n, after.inbox, step.requestId, if step.accept then Accepted else Rejected,
                       if step.accept then {req.from} else {});
    } else if step.Ask? && after.inbox.requests != n.inbox.requests {
      NotYetAsked(net, step.user, step.requestId);
      AskedIsBehind(n, after.inbox, step.requestId, after.inbox.requests[step.requestId]);
    } else {
      assert after == n;
    }
  }

  lemma NotYetAsked(net: Net, u: string, id: string)
    requires Sound(net) && u in net.nodes && id !in net.issued
    ensures id !in net.nodes[u].inbox.requests
  {
    assert Entry(net, u, id).None?;
  }

  /** A restart that misses no decision forgets at most requests just sent. */
  lemma RestartForgets(net: Net, u: string)
    requires Named(net) && u in net.nodes && Behind(net.nodes[u]) && !Unwritten(net.nodes[u])
    ensures var after := Next(net, Restart(u));
            && Named(after) && after.nodes.Keys == net.nodes.Keys && after.issued == net.issued
                && after.sent == net.sent
            && (forall w, i :: Entry(after, w, i) == Entry(net, w, i)
                  || (w == u && Entry(after, w, i).None? && Entry(net, w, i).value.status == PendingOut))
            && (forall w, v :: Befriends(after, w, v) <==> Befriends(net, w, v))
  {
    var n := net.nodes[u];
    var after := Next(net, Restart(u));
    forall w, i
      ensures Entry(after, w, i) == Entry(net, w, i)
              || (w == u && Entry(after, w, i).None? && Entry(net, w, i).value.status == PendingOut)
    {
      if w == u && i in n.saved.requests {
        assert !Undecided(n, i);
      }
    }
  }

  lemma RestartKeeps(net: Net, u: string)
    requires Sound(net) && u in net.nodes && Behind(net.nodes[u]) && !Unwritten(net.nodes[u])
    ensures var after := Next(net, Restart(u));
            Sound(after) && Advances(net, after)
  {
    hide Entry, Befriends, Named, Behind, Unwritten, Next, Handshake, Truthful, Earned;
    var after := Next(net, Restart(u));
    RestartForgets(net, u);
    RestartAdvances(net, after);
    hide Advances;
    forall i | i in after.issued ensures Handshake(after, i, after.issued[i].0, after.issued[i].1) {
      RestartedHandshake(net, after, i, net.issued[i].0, net.issued[i].1);
    }
    forall e | e in after.sent ensures Truthful(after, e) {
      TruthStays(net, after, e);
    }
    forall w, v | Befriends(after, w, v) ensures Earned(after, w, v) {
      EarnedStays(net, after, w, v);
    }
  }

  lemma RestartAdvances(net: Net, after: Net)
    requires after.nodes.Keys == net.nodes.Keys && after.issued == net.issued && after.sent == net.sent
    requires forall w, i :: Entry(after, w, i) == Entry(net, w, i)
                            || (Entry(after, w, i).None? && Entry(net, w, i).Some?
                                && Entry(net, w, i).value.status == PendingOut)
    requires forall w, v :: Befriends(after, w, v) <==> Befriends(net, w, v)
    ensures Advances(net, after)
  {
    hide Entry, Befriends;
  }

  lemma RestartedHandshake(net: Net, after: Net, id: string, a: string, b: string)
    requires Handshake(net, id, a, b) && after.nodes.Keys == net.nodes.Keys
    requires forall w, i :: Entry(after, w, i) == Entry(net, w, i)
                            || (Entry(after, w, i).None? && Entry(net, w, i).Some?
                                && Entry(net, w, i).value.status == PendingOut)
    requires forall w, v :: Befriends(after, w, v) <==> Befriends(net, w, v)
    ensures Handshake(after, id, a, b)
  {
    hide Entry, Befriends;
  }

  lemma StepKeepsSound(net: Net, step: Step)
    requires Sound(net)
    requires step.user in net.nodes && step.Restart? ==>
               Behind(net.nodes[step.user]) && !Unwritten(net.nodes[step.user])
    ensures Sound(Next(net, step)) && Advances(net, Next(net, step))
  {
    hide Sound, Advances, Behind, Unwritten;
    var after := Next(net, step);
    if step.user !in net.nodes {
      NothingKeeps(net, after);
    } else {
      match step
      case Ask(u, target, letter, wallet, id, msgId, reported) =>
        if id in net.issued || '.' in target { NothingKeeps(net, after); }
        else { AskKeeps(net, u, target, letter, wallet, id, msgId, reported); }
      case Answer(u, id, accept, msgId, reported) => AnswerKeeps(net, u, id, accept, msgId, reported);
      case Deliver(u, e) => if e in net.sent { DeliverKeeps(net, u, e); } else { NothingKeeps(net, after); }
      case Discover(u, about) =>
        QuietWriteKeeps(net, after, u, PresenceHeard(net.nodes[u].me, net.nodes[u].inbox, about));
      case Read(u) => QuietWriteKeeps(net, after, u, net.nodes[u].inbox);
      case Restart(u) => RestartKeeps(net, u);
    }
  }

  /** Every step but a restart that misses a decision keeps what runs keep, and forgets nothing. */
  lemma NextKeeps(net: Net, step: Step)
    requires Inv(net) && (step.user in net.nodes && step.Restart? ==> !Unwritten(net.nodes[step.user]))
    ensures Inv(Next(net, step)) && Advances(net, Next(net, step))
  {
    hide Next, Sound, Behind, Unwritten, Advances;
    StepKeepsSound(net, step);
    OthersStay(net, step);
    if step.user in net.nodes {
      StepIsBehind(net, step);
    }
  }

  lemma OthersStay(net: Net, step: Step)
    ensures Next(net, step).nodes.Keys == net.nodes.Keys
    ensures forall u | u in net.nodes && u != step.user :: Next(net, step).nodes[u] == net.nodes[u]
  {
    hide Asked, Answered, SecureHeard, PresenceHeard, Posted;
  }
}
