/** Whole runs of the friend handshake (internal/social/manager.go): the two sides agree and nothing decided is
    forgotten, exactly as long as nobody restarts between an answer that came back before the state file was
    written and the next writing of the file. */
module SocialRestarts {
  import opened Social
  import opened SocialHandshake

  /** The net after the first k steps. */
  function At(start: Net, steps: seq<Step>, k: nat): Net
    requires k <= |steps|
  {
    Run(start, steps[..k])
  }

  /** An answer of this user came back before the state file was written, and it has not been written since. */
  predicate Hangs(start: Net, steps: seq<Step>, u: string) {
    steps != [] &&
    var before, step := Run(start, steps[..|steps| - 1]), steps[|steps| - 1];
    if step.user != u || u !in before.nodes then Hangs(start, steps[..|steps| - 1], u)
    else
      && !step.Restart? && !Writes(before, step)
      && (Hangs(start, steps[..|steps| - 1], u) || Decides(before, step))
  }

  /** Nobody restarts with an answer hanging. */
  predicate NothingLost(start: Net, steps: seq<Step>) {
    forall k | 0 <= k < |steps| :: steps[k].Restart? ==> !Hangs(start, steps[..k], steps[k].user)
  }

  lemma RunNext(start: Net, steps: seq<Step>, k: nat)
    requires k < |steps|
    ensures At(start, steps, k + 1) == Next(At(start, steps, k), steps[k])
  {
    assert steps[..k + 1][..k] == steps[..k];
  }

  lemma NothingLostBefore(start: Net, steps: seq<Step>, n: nat)
    requires NothingLost(start, steps) && n <= |steps|
    ensures NothingLost(start, steps[..n])
    ensures n < |steps| && steps[n].Restart? ==> !Hangs(start, steps[..n], steps[n].user)
  {
    hide Hangs;
    forall k | 0 <= k < n && steps[..n][k].Restart? ensures !Hangs(start, steps[..n][..k], steps[..n][k].user) {
      assert steps[..n][..k] == steps[..k];
    }
  }

  lemma StartIsSound(start: Net)
    requires Start(start)
    ensures Inv(start) && forall u | u in start.nodes :: !Unwritten(start.nodes[u])
  {
    assert forall u, v :: !Befriends(start, u, v);
  }

  ghost predicate HangsShown(start: Net, steps: seq<Step>) {
    && Run(start, steps).nodes.Keys == start.nodes.Keys
    && forall u | u in start.nodes :: Hangs(start, steps, u) <==> Unwritten(Run(start, steps).nodes[u])
  }

  /** What holds of every run in which nothing is lost; and an answer hangs exactly when the file misses a decision. */
  lemma {:induction false} RunKeeps(start: Net, steps: seq<Step>)
    requires Start(start) && NothingLost(start, steps)
    ensures Inv(Run(start, steps)) && HangsShown(start, steps)
  {
    if steps == [] {
      StartIsSound(start);
    } else {
      var n := |steps| - 1;
      NothingLostBefore(start, steps, n);
      RunKeeps(start, steps[..n]);
      LastStep(start, steps);
    }
  }

  lemma LastStep(start: Net, steps: seq<Step>)
    requires steps != []
    requires var n := |steps| - 1;
             && Inv(Run(start, steps[..n])) && HangsShown(start, steps[..n])
             && (steps[n].Restart? ==> !Hangs(start, steps[..n], steps[n].user))
    ensures Inv(Run(start, steps)) && HangsShown(start, steps)
  {
    hide Next, Sound, Behind, Unwritten, Advances, Writes, Decides;
    var n := |steps| - 1;
    var before := Run(start, steps[..n]);
    NextKeeps(before, steps[n]);
    OthersStay(before, steps[n]);
    if steps[n].user in before.nodes {
      StepIsBehind(before, steps[n]);
    }
  }

  // ---------------------------------------------------------------------------
  // What the two sides can rely on
  // ---------------------------------------------------------------------------

  /** What the asker's record says the other one's says, and after an acceptance each is a friend of the other. */
  ghost predicate AgreedOn(net: Net, id: string)
    requires id in net.issued
  {
    var (a, b) := net.issued[id];
    && (Entry(net, a, id).Some? && Settled(Entry(net, a, id).value.status) ==>
          Entry(net, b, id).Some? && Entry(net, b, id).value.status == Entry(net, a, id).value.status)
    && (HasAccepted(net, a, id) ==> Befriends(net, a, b) && Befriends(net, b, a))
  }

  /** All are agreed, and a friend is always somebody of the two of whom one asked and the other accepted. */
  ghost predicate Agreed(net: Net) {
    (forall id | id in net.issued :: AgreedOn(net, id)) && FriendsEarned(net)
  }

  lemma SoundIsAgreed(net: Net)
    requires Sound(net)
    ensures Agreed(net)
  {
    forall id | id in net.issued ensures AgreedOn(net, id) {
      assert Handshake(net, id, net.issued[id].0, net.issued[id].1);
    }
  }

  lemma HandshakeAgrees(start: Net, steps: seq<Step>, id: string)
    requires Start(start) && NothingLost(start, steps) && id in Run(start, steps).issued
    ensures AgreedOn(Run(start, steps), id)
  {
    hide *;
    RunKeeps(start, steps);
    InvIsSound(Run(start, steps));
    SoundIsAgreed(Run(start, steps));
    AgreedHere(Run(start, steps), id);
  }

  lemma InvIsSound(net: Net)
    requires Inv(net)
    ensures Sound(net)
  {
  }

  lemma AgreedHere(net: Net, id: string)
    requires Agreed(net) && id in net.issued
    ensures AgreedOn(net, id)
  {
  }

  lemma OnlyEarnedFriends(start: Net, steps: seq<Step>, u: string, v: string)
    requires Start(start) && NothingLost(start, steps) && Befriends(Run(start, steps), u, v)
    ensures Earned(Run(start, steps), u, v)
  {
    RunKeeps(start, steps);
    hide Run, Named, Handshakes, MailTruthful, Earned, Befriends, NothingLost, HangsShown;
  }

  lemma StepOfRun(start: Net, steps: seq<Step>, k: nat)
    requires Start(start) && NothingLost(start, steps) && k < |steps|
    ensures Advances(At(start, steps, k), At(start, steps, k + 1)) && Agreed(At(start, steps, k + 1))
  {
    NothingLostBefore(start, steps, k);
    NothingLostBefore(start, steps, k + 1);
    RunKeeps(start, steps[..k]);
    RunKeeps(start, steps[..k + 1]);
    RunNext(start, steps, k);
    hide Run, Next, Sound, Behind, Unwritten, Advances, Agreed, Hangs, NothingLost;
    SoundIsAgreed(At(start, steps, k + 1));
    NextKeeps(At(start, steps, k), steps[k]);
  }

  /** A decision is never reopened or changed and a friend never lost, whatever is delivered again. */
  lemma {:induction false} DecisionsAreForever(start: Net, steps: seq<Step>, k: nat)
    requires Start(start) && NothingLost(start, steps) && k <= |steps|
    ensures Advances(Run(start, steps[..k]), Run(start, steps))
    decreases |steps| - k
  {
    if k == |steps| {
      assert steps[..k] == steps;
    } else {
      hide Run, Next, Advances, NothingLost;
      StepOfRun(start, steps, k);
      DecisionsAreForever(start, steps, k + 1);
      AdvancesFurther(Run(start, steps[..k]), Run(start, steps[..k + 1]), Run(start, steps));
    }
  }

  lemma AdvancesFurther(a: Net, b: Net, c: Net)
    requires Advances(a, b) && Advances(b, c)
    ensures Advances(a, c)
  {
    hide Entry, Befriends;
  }

  // ---------------------------------------------------------------------------
  // When they cannot
  // ---------------------------------------------------------------------------

  /** A restart that misses a decision forgets it. */
  lemma LostDecision(net: Net, u: string)
    requires u in net.nodes && Unwritten(net.nodes[u])
    ensures !Advances(net, Next(net, Restart(u)))
  {
    var id :| Undecided(net.nodes[u], id);
    var after := Next(net, Restart(u));
    assert Entry(net, u, id).Some? && Settled(Entry(net, u, id).value.status);
    assert Entry(after, u, id).Some? && Entry(after, u, id).value.status == PendingIn;
  }

  /** If the asker has been told by then, the two disagree from there on. */
  lemma LostAgreement(net: Net, b: string, id: string)
    requires b in net.nodes && Undecided(net.nodes[b], id)
    requires id in net.issued && net.issued[id].1 == b != net.issued[id].0
    requires var a := net.issued[id].0;
             Entry(net, a, id).Some? && Settled(Entry(net, a, id).value.status)
    ensures !AgreedOn(Next(net, Restart(b)), id)
  {
    var after := Next(net, Restart(b));
    assert Entry(after, b, id).value.status == PendingIn;
    assert Entry(after, net.issued[id].0, id) == Entry(net, net.issued[id].0, id);
  }

  /** This step forgets nothing decided and loses no friend, and all are agreed after it. */
  ghost predicate SafeStep(start: Net, steps: seq<Step>, k: nat)
    requires k < |steps|
  {
    Advances(At(start, steps, k), At(start, steps, k + 1)) && Agreed(At(start, steps, k + 1))
  }

  ghost predicate Safe(start: Net, steps: seq<Step>) {
    forall k | 0 <= k < |steps| :: SafeStep(start, steps, k)
  }

  /** A run is safe throughout if and only if nobody restarts with an answer hanging. */
  lemma SafeExactlyWhenWritten(start: Net, steps: seq<Step>)
    requires Start(start)
    ensures Safe(start, steps) <==> NothingLost(start, steps)
  {
    hide Run, Next, Advances, Agreed, Hangs, NothingLost;
    if NothingLost(start, steps) {
      forall k | 0 <= k < |steps|
        ensures SafeStep(start, steps, k)
      {
        StepOfRun(start, steps, k);
      }
    }
    if Safe(start, steps) {
      SafeLosesNothing(start, steps, |steps|);
      assert steps[..|steps|] == steps;
    }
  }

  lemma {:induction false} SafeLosesNothing(start: Net, steps: seq<Step>, n: nat)
    requires Start(start) && Safe(start, steps) && n <= |steps|
    ensures NothingLost(start, steps[..n])
  {
    if n == 0 {
      assert steps[..n] == [];
    } else {
      SafeLosesNothing(start, steps, n - 1);
      SafeStepLosesNothing(start, steps, n - 1);
      OneMoreStep(start, steps, n);
    }
  }

  lemma SafeStepLosesNothing(start: Net, steps: seq<Step>, k: nat)
    requires Start(start) && k < |steps| && SafeStep(start, steps, k) && NothingLost(start, steps[..k])
    ensures steps[k].Restart? ==> !Hangs(start, steps[..k], steps[k].user)
  {
    hide Run, Next, Advances, Agreed, Hangs, NothingLost, Unwritten, Inv;
    var u := steps[k].user;
    RunKeeps(start, steps[..k]);
    RunNext(start, steps, k);
    if u !in start.nodes {
      HangsOnlyInside(start, steps[..k], u);
    } else if steps[k] == Restart(u) && Unwritten(Run(start, steps[..k]).nodes[u]) {
      LostDecision(Run(start, steps[..k]), u);
    }
  }

  lemma {:induction false} HangsOnlyInside(start: Net, steps: seq<Step>, u: string)
    requires u !in start.nodes
    ensures Run(start, steps).nodes.Keys == start.nodes.Keys && !Hangs(start, steps, u)
  {
    if steps != [] {
      HangsOnlyInside(start, steps[..|steps| - 1], u);
      OthersStay(Run(start, steps[..|steps| - 1]), steps[|steps| - 1]);
      hide Next;
    }
  }

  lemma OneMoreStep(start: Net, steps: seq<Step>, n: nat)
    requires 0 < n <= |steps| && NothingLost(start, steps[..n - 1])
    requires steps[n - 1].Restart? ==> !Hangs(start, steps[..n - 1], steps[n - 1].user)
    ensures NothingLost(start, steps[..n])
  {
    hide Hangs;
    forall k | 0 <= k < n && steps[..n][k].Restart? ensures !Hangs(start, steps[..n][..k], steps[..n][k].user) {
      assert steps[..n][..k] == steps[..k];
      if k < n - 1 {
        assert steps[..n - 1][..k] == steps[..k] && steps[..n - 1][k] == steps[k];
      }
    }
  }

  // ---------------------------------------------------------------------------
  // The response
  // ---------------------------------------------------------------------------

  /** Once the response reaches the asker as something new, its record, if it still has one, says what the other
      one's says, and after an acceptance the two are friends of each other. */
  lemma ResponseCompletes(start: Net, steps: seq<Step>, e: Envelope)
    requires Start(start) && NothingLost(start, steps)
    requires var net := Run(start, steps);
             && e in net.sent && e.body.Some? && e.body.value.Response? && e.to in net.nodes
             && Opens(net.nodes[e.to].me, net.nodes[e.to].inbox, e)
    ensures var net := Next(Run(start, steps), Deliver(e.to, e));
            var (a, b, id) := (e.to, e.body.value.from, e.body.value.requestId);
            && Entry(net, b, id).Some? && Entry(net, b, id).value.status == e.body.value.status
            && (Entry(net, a, id).Some? ==> Entry(net, a, id).value.status == e.body.value.status)
            && (e.body.value.status == Accepted ==> Befriends(net, a, b) && Befriends(net, b, a))
  {
    hide Run, Next, NothingLost, HangsShown, Advances, Sound, Behind, Unwritten, Truthful, Handshake, Opens, Entry,
        Befriends;
    var before := Run(start, steps);
    RunKeeps(start, steps);
    NextKeeps(before, Deliver(e.to, e));
    ResponseHeardHere(before, e);
  }

  lemma ResponseHeardHere(before: Net, e: Envelope)
    requires Sound(before) && e in before.sent && e.body.Some? && e.body.value.Response? && e.to in before.nodes
    requires Opens(before.nodes[e.to].me, before.nodes[e.to].inbox, e)
    requires var net := Next(before, Deliver(e.to, e)); Sound(net) && Advances(before, net)
    ensures var net := Next(before, Deliver(e.to, e));
            var (a, b, id) := (e.to, e.body.value.from, e.body.value.requestId);
            && Entry(net, b, id).Some? && Entry(net, b, id).value.status == e.body.value.status
            && (Entry(net, a, id).Some? ==> Entry(net, a, id).value.status == e.body.value.status)
            && (e.body.value.status == Accepted ==> Befriends(net, a, b) && Befriends(net, b, a))
  {
    var net := Next(before, Deliver(e.to, e));
    assert Truthful(before, e);
    var (a, b, id) := (e.to, e.body.value.from, e.body.value.requestId);
    assert net.nodes[a].inbox == ResponseHeard(before.nodes[a].inbox.(seen := before.nodes[a].inbox.seen + {e.msgId}),
                                               b, id, e.body.value.status);
    HandshakeHere(net, id);
    hide Next, Sound, Opens;
    assert Entry(before, b, id).Some? && Entry(net, b, id) == Entry(before, b, id);
  }

  // ---------------------------------------------------------------------------
  // Such a run
  // ---------------------------------------------------------------------------

  function Knows(other: string): Inbox {
    BLANK_INBOX.(knownUsers := map[other := KnownUser(other, "", "", "", "", "", "")])
  }

  function Person(u: string, other: string): Node {
    Node(Me(Some(Profile(u, true)), true), Knows(other), Knows(other))
  }

  /** Two users who know each other. */
  function Pair(a: string, b: string): Net {
    Net(map[a := Person(a, b), b := Person(b, a)], {}, map[])
  }

  /** b accepts in a call that is not reported although its response gets through, restarts, and then rejects. */
  function LostAnswer(a: string, b: string, letter: Letter, id: string, m: string): (steps: seq<Step>)
    ensures |steps| == 6
  {
    [Ask(a, b, letter, Wallet(true, true, true), id, m, true),
     Deliver(b, Posted(m, b, Request(a, id, letter, true, true))),
     Answer(b, id, true, m, false),
     Deliver(a, Posted(m, a, Response(b, id, Accepted))),
     Restart(b),
     Answer(b, id, false, m, true)]
  }

  predicate Apart(a: string, b: string) {
    a != b && a != "" && b != "" && '.' !in a && '.' !in b
  }

  /** The asker is left with a friend, and with a record that says accepted where the other one's says rejected. */
  lemma LostAnswerDisagrees(a: string, b: string, letter: Letter, id: string, m: string)
    requires Apart(a, b) && id != "" && m != ""
    ensures Start(Pair(a, b))
    ensures var net := Run(Pair(a, b), LostAnswer(a, b, letter, id, m));
            && HasAccepted(net, a, id) && Befriends(net, a, b)
            && Entry(net, b, id).Some? && Entry(net, b, id).value.status == Rejected && !Befriends(net, b, a)
  {
    hide Run, Pair, Start, LostAnswer, Entry, HasAccepted, Befriends;
    PairStarts(a, b);
    LostAndRejected(a, b, letter, id, m);
    WholeRun(Pair(a, b), LostAnswer(a, b, letter, id, m));
  }

  lemma PairStarts(a: string, b: string)
    requires Apart(a, b)
    ensures Start(Pair(a, b))
  {
  }

  lemma WholeRun(start: Net, steps: seq<Step>)
    ensures At(start, steps, |steps|) == Run(start, steps)
  {
    assert steps[..|steps|] == steps;
  }

  function Sent(a: string, b: string, letter: Letter, id: string, status: Status): FriendRequest {
    FriendRequest.FriendRequest(id, a, b, letter, status)
  }

  function Heard(a: string, b: string, letter: Letter, id: string, status: Status): FriendRequest {
    FriendRequest.FriendRequest(id, a, b, letter.(fromName := letter.walletAddress), status)
  }

  /** After the first two steps: the request is on record on both sides. */
  lemma AskedAndHeard(a: string, b: string, letter: Letter, id: string, m: string)
    requires Apart(a, b) && id != "" && m != ""
    ensures var net := At(Pair(a, b), LostAnswer(a, b, letter, id, m), 2);
            && net.nodes.Keys == {a, b} && net.nodes[a].me == Person(a, b).me && net.nodes[b].me == Person(b, a).me
            && net.nodes[a].inbox == Knows(b).(requests := map[id := Sent(a, b, letter, id, PendingOut)])
            && net.nodes[b].inbox == Knows(a).(requests := map[id := Heard(a, b, letter, id, PendingIn)], seen := {m})
            && net.nodes[b].saved == net.nodes[b].inbox.(seen := {})
  {
    var start, steps := Pair(a, b), LostAnswer(a, b, letter, id, m);
    var e := Posted(m, b, Request(a, id, letter, true, true));
    InboxTopicRoundTrip(b);
    assert At(start, steps, 0) == start;
    RunNext(start, steps, 0);
    RunNext(start, steps, 1);
    hide InboxTopic, UserIdFromInboxTopic, Run;
    var net := At(start, steps, 1);
    assert net.nodes[b] == Person(b, a) && e in net.sent;
    assert net.nodes[a].inbox.requests == map[id := Sent(a, b, letter, id, PendingOut)];
    var heard := At(start, steps, 2).nodes[b].inbox;
    assert heard.requests == map[id := Heard(a, b, letter, id, PendingIn)] && heard.seen == {m};
  }

  /** After the next two: both say accepted, but b's state file does not. */
  lemma AcceptedAndTold(a: string, b: string, letter: Letter, id: string, m: string)
    requires Apart(a, b) && id != "" && m != ""
    ensures var net := At(Pair(a, b), LostAnswer(a, b, letter, id, m), 4);
            && net.nodes.Keys == {a, b} && net.nodes[b].me == Person(b, a).me
            && net.nodes[a].inbox.requests == map[id := Sent(a, b, letter, id, Accepted)]
                && net.nodes[a].inbox.friends == {b}
            && net.nodes[b].saved == Knows(a).(requests := map[id := Heard(a, b, letter, id, PendingIn)])
  {
    var start, steps := Pair(a, b), LostAnswer(a, b, letter, id, m);
    AskedAndHeard(a, b, letter, id, m);
    InboxTopicRoundTrip(a);
    RunNext(start, steps, 2);
    RunNext(start, steps, 3);
    hide InboxTopic, UserIdFromInboxTopic, Run;
    assert steps[3].envelope in At(start, steps, 3).sent;
    assert At(start, steps, 3).nodes[a] == At(start, steps, 2).nodes[a];
  }

  lemma LostAndRejected(a: string, b: string, letter: Letter, id: string, m: string)
    requires Apart(a, b) && id != "" && m != ""
    ensures var net := At(Pair(a, b), LostAnswer(a, b, letter, id, m), 6);
            && HasAccepted(net, a, id) && Befriends(net, a, b)
            && Entry(net, b, id).Some? && Entry(net, b, id).value.status == Rejected && !Befriends(net, b, a)
  {
    var start, steps := Pair(a, b), LostAnswer(a, b, letter, id, m);
    AcceptedAndTold(a, b, letter, id, m);
    RunNext(start, steps, 4);
    RunNext(start, steps, 5);
    hide Posted, Run;
    assert At(start, steps, 5).nodes[a] == At(start, steps, 4).nodes[a];
  }
}
