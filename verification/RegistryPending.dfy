/** When an applicant of the registry (contracts/AssemblerRegistry.sol) has more than one Pending request:
    pendingRequestIdOf forbids a second one, but removing a contact clears it. */
module RegistryPending {
  import opened RegistryLog

  // ---------------------------------------------------------------------------
  // One transaction
  // ---------------------------------------------------------------------------

  ghost predicate AtMostOne(v: View) {
    forall a :: |PendingOf(v, a)| <= 1
  }

  /** The call is a submission that goes through although its sender still has a Pending request. */
  predicate SecondSubmit(v: View, env: Env, call: Call) {
    && call.SubmitContactRequest? && |call.note| <= MAX_NOTE_LENGTH
    && env.sender !in v.contacts && env.sender !in v.pending && v.nextRequestId < MAX_UINT256
    && PendingOf(v, env.sender) != {}
  }

  /** The call removes a contact that has a recorded request. */
  predicate EarlyRemoval(v: View, env: Env, call: Call) {
    call.RemoveContact? && env.sender == v.owner && call.who in v.contacts && call.who in v.pending
  }

  lemma PendingAfter(v: View, e: Event, a: Address)
    requires Numbered(v) && Fits(v, e)
    ensures if e.RequestSubmitted? && e.applicant == a
            then PendingOf(Apply(v, e), a) == PendingOf(v, a) + {e.requestId} && e.requestId !in PendingOf(v, a)
            else PendingOf(Apply(v, e), a) <= PendingOf(v, a)
  {
    if e.RequestSubmitted? && e.applicant == a {
      var after := Apply(v, e);
      assert after.requests == v.requests[e.requestId := Request(e.requestId, a, e.note, Pending, e.at, 0, 0)];
      assert PendingOf(after, a) == PendingOf(v, a) + {e.requestId} by {
        assert after.requests[e.requestId].status == Pending && after.requests[e.requestId].applicant == a;
        forall r: nat | r != e.requestId ensures r in PendingOf(after, a) <==> r in PendingOf(v, a) {
          assert r in v.requests <==> r in after.requests;
          assert r in v.requests ==> v.requests[r] == after.requests[r];
        }
      }
    }
  }

  lemma EventKeepsOne(v: View, e: Event)
    requires Accounts(v) && AtMostOne(v) && Fits(v, e)
    ensures AtMostOne(Apply(v, e)) <==> !(e.RequestSubmitted? && PendingOf(v, e.applicant) != {})
  {
    forall a: Address
      ensures |PendingOf(Apply(v, e), a)| <= 1 <==> !(e.RequestSubmitted? && e.applicant == a && PendingOf(v, a) != {})
    {
      PendingAfter(v, e, a);
      assert |PendingOf(v, a)| <= 1;
      if !(e.RequestSubmitted? && e.applicant == a) {
        SubsetSize(PendingOf(Apply(v, e), a), PendingOf(v, a));
      } else if PendingOf(v, a) == {} {
        assert PendingOf(Apply(v, e), a) == {e.requestId};
      }
    }
  }

  /** A transaction gives some applicant a second Pending request exactly when it is such a submission. */
  lemma SecondNeedsSubmit(log: seq<Event>, env: Env, call: Call)
    requires Accounts(Replay(log)) && AtMostOne(Replay(log)) && env.sender != 0
    ensures AtMostOne(Replay(Extended(log, env, call))) <==> !SecondSubmit(Replay(log), env, call)
  {
    assert Replay(log).nextRequestId <= MAX_UINT256;
    hide Replay, Outcome, AtMostOne, PendingOf, Apply, Fits, Accounts;
    var v := Replay(log);
    SubmitOutcome(v, env, call);
    if Outcome(v, env, call).Ok? {
      OutcomeFits(v, env, call);
      var events := Outcome(v, env, call).value;
      ReplayOne(log, events[0]);
      EventKeepsOne(v, events[0]);
      if |events| == 2 {
        assert events == [events[0], events[1]];
        ReplayTwo(log, events[0], events[1]);
        EventKeepsAccounts(v, events[0]);
        EventKeepsOne(Apply(v, events[0]), events[1]);
      } else {
        assert events == [events[0]];
      }
    }
  }

  /** Which calls submit, and when they go through. */
  lemma SubmitOutcome(v: View, env: Env, call: Call)
    ensures call.SubmitContactRequest? ==>
              (Outcome(v, env, call).Ok?
               <==> |call.note| <= MAX_NOTE_LENGTH && env.sender !in v.contacts && env.sender !in v.pending
                    && v.nextRequestId != MAX_UINT256)
    ensures Outcome(v, env, call).Ok? && call.SubmitContactRequest? ==>
              var events := Outcome(v, env, call).value;
              |events| == 1 && events[0].RequestSubmitted? && events[0].applicant == env.sender
    ensures Outcome(v, env, call).Ok? && !call.SubmitContactRequest? ==>
              forall e | e in Outcome(v, env, call).value :: !e.RequestSubmitted?
  {
  }

  /** Every Pending request is the one recorded for its applicant; so no applicant has two. */
  ghost predicate Linked(v: View) {
    forall a :: Orphans(v, a) == {}
  }

  lemma LinkedMeansOne(v: View, a: Address)
    requires Linked(v)
    ensures |PendingOf(v, a)| <= 1
  {
    assert Orphans(v, a) == {};
    if a in v.pending {
      SubsetSize(PendingOf(v, a), {v.pending[a]});
    } else {
      SubsetSize(PendingOf(v, a), {});
    }
  }

  /** A transaction breaks the link exactly when it removes a contact that has a recorded Pending request. */
  lemma LinkBreaks(log: seq<Event>, env: Env, call: Call)
    requires Accounts(Replay(log)) && Linked(Replay(log)) && env.sender != 0
    ensures var v := Replay(log);
            Linked(Replay(Extended(log, env, call)))
            <==> !EarlyRemoval(v, env, call)
  {
    var v := Replay(log);
    if Outcome(v, env, call).Ok? {
      OutcomeFits(v, env, call);
      var events := Outcome(v, env, call).value;
      ReplayOne(log, events[0]);
      if |events| == 2 {
        assert events == [events[0], events[1]];
        ReplayTwo(log, events[0], events[1]);
        EventKeepsAccounts(v, events[0]);
        EventKeepsLink(v, events[0]);
        EventKeepsLink(Apply(v, events[0]), events[1]);
      } else {
        assert events == [events[0]];
        EventKeepsLink(v, events[0]);
      }
    }
  }

  lemma EventKeepsLink(v: View, e: Event)
    requires Accounts(v) && Linked(v) && Fits(v, e)
    ensures Linked(Apply(v, e)) <==> !(e.ContactRemoved? && e.contact in v.pending)
  {
    if e.ContactRemoved? && e.contact in v.pending {
      assert v.pending[e.contact] in PendingOf(v, e.contact);
      assert v.pending[e.contact] in Orphans(Apply(v, e), e.contact);
    } else {
      forall a: Address ensures Orphans(Apply(v, e), a) == {} {
        assert Orphans(v, a) == {};
        EventOrphans(v, e, a);
      }
    }
  }

  // ---------------------------------------------------------------------------
  // Runs
  // ---------------------------------------------------------------------------

  ghost function At(creator: Env, calls: seq<(Env, Call)>, k: nat): View
    requires k <= |calls|
  {
    Replay(Run(creator, calls[..k]))
  }

  ghost predicate NoSecondSubmit(creator: Env, calls: seq<(Env, Call)>) {
    forall k | 0 <= k < |calls| :: !SecondSubmit(At(creator, calls, k), calls[k].0, calls[k].1)
  }

  ghost predicate OneThroughout(creator: Env, calls: seq<(Env, Call)>) {
    forall k | 0 <= k <= |calls| :: AtMostOne(At(creator, calls, k))
  }

  ghost predicate NoEarlyRemoval(creator: Env, calls: seq<(Env, Call)>, from: nat) {
    forall k | from <= k < |calls| :: !EarlyRemoval(At(creator, calls, k), calls[k].0, calls[k].1)
  }

  ghost predicate LinkedThroughout(creator: Env, calls: seq<(Env, Call)>) {
    forall k | 0 <= k <= |calls| :: Linked(At(creator, calls, k))
  }

  lemma AtPrefix(creator: Env, calls: seq<(Env, Call)>, n: nat, k: nat)
    requires k <= n <= |calls|
    ensures At(creator, calls[..n], k) == At(creator, calls, k)
  {
    assert calls[..n][..k] == calls[..k];
  }

  lemma AtNext(creator: Env, calls: seq<(Env, Call)>, k: nat)
    requires k < |calls| && RealSenders(creator, calls)
    ensures Run(creator, calls[..k + 1]) == Extended(Run(creator, calls[..k]), calls[k].0, calls[k].1)
    ensures Accounts(At(creator, calls, k)) && calls[k].0.sender != 0
  {
    assert calls[..k + 1][..k] == calls[..k];
    RunAccounts(creator, calls[..k]);
    assert calls[k] in calls;
  }

  lemma CreatedIsLinked(creator: Env, calls: seq<(Env, Call)>)
    requires creator.sender != 0
    ensures Linked(At(creator, calls, 0)) && AtMostOne(At(creator, calls, 0))
  {
    var e, f := Created(creator)[0], Created(creator)[1];
    assert calls[..0] == [] && Created(creator) == [] + [e, f];
    ReplayTwo([], e, f);
    assert forall a: Address :: PendingOf(At(creator, calls, 0), a) == {};
    assert forall a: Address :: Orphans(At(creator, calls, 0), a) == {};
  }

  /** In a run no applicant ever has two Pending requests if and only if no submission goes through while its
      sender still has one. */
  lemma OneExactlyWithoutSecond(creator: Env, calls: seq<(Env, Call)>)
    requires RealSenders(creator, calls)
    ensures OneThroughout(creator, calls) <==> NoSecondSubmit(creator, calls)
  {
    hide Run, Replay, AtMostOne, SecondSubmit, Extended;
    CreatedIsLinked(creator, calls);
    var ok := true;
    for k := 0 to |calls|
      invariant ok <==> forall i | 0 <= i <= k :: AtMostOne(At(creator, calls, i))
      invariant ok <==> forall i | 0 <= i < k :: !SecondSubmit(At(creator, calls, i), calls[i].0, calls[i].1)
    {
      AtNext(creator, calls, k);
      if ok {
        SecondNeedsSubmit(Run(creator, calls[..k]), calls[k].0, calls[k].1);
        assert AtMostOne(At(creator, calls, k + 1)) <==> !SecondSubmit(At(creator, calls, k), calls[k].0, calls[k].1);
      }
      ok := ok && AtMostOne(At(creator, calls, k + 1));
    }
  }

  /** In a run every Pending request stays the recorded one if and only if the owner never removes a contact that
      has a recorded request. */
  lemma LinkedExactlyWithoutRemoval(creator: Env, calls: seq<(Env, Call)>)
    requires RealSenders(creator, calls)
    ensures LinkedThroughout(creator, calls) <==> NoEarlyRemoval(creator, calls, 0)
  {
    hide Run, Replay, Linked, EarlyRemoval, Extended;
    CreatedIsLinked(creator, calls);
    var ok := true;
    for k := 0 to |calls|
      invariant ok <==> forall i | 0 <= i <= k :: Linked(At(creator, calls, i))
      invariant ok <==> forall i | 0 <= i < k :: !EarlyRemoval(At(creator, calls, i), calls[i].0, calls[i].1)
    {
      AtNext(creator, calls, k);
      if ok {
        LinkBreaks(Run(creator, calls[..k]), calls[k].0, calls[k].1);
        assert Linked(At(creator, calls, k + 1)) <==> !EarlyRemoval(At(creator, calls, k), calls[k].0, calls[k].1);
      }
      ok := ok && Linked(At(creator, calls, k + 1));
    }
  }

  /** So no applicant has two in a run without such removals. */
  lemma NoRemovalMeansOne(creator: Env, calls: seq<(Env, Call)>, a: Address)
    requires RealSenders(creator, calls) && NoEarlyRemoval(creator, calls, 0)
    ensures |PendingOf(Replay(Run(creator, calls)), a)| <= 1
  {
    LinkedExactlyWithoutRemoval(creator, calls);
    assert calls[..|calls|] == calls;
    assert Linked(At(creator, calls, |calls|));
    LinkedMeansOne(Replay(Run(creator, calls)), a);
  }

  // ---------------------------------------------------------------------------
  // What an unrecorded request leads to
  // ---------------------------------------------------------------------------

  /** The transactions after which an applicant with an unrecorded request has two. */
  function SecondCalls(v: View, a: Address): seq<(Env, Call)> {
    if a in v.pending then []
    else if a in v.contacts
    then [(Env(v.owner, 0), RemoveContact(a)), (Env(a, 0), SubmitContactRequest([]))]
    else [(Env(a, 0), SubmitContactRequest([]))]
  }

  /** Once a run has left an applicant an unrecorded Pending request, at most two further transactions give it
      two, and none of them removes a contact that has a recorded request. */
  lemma OrphanMeansSecond(creator: Env, calls: seq<(Env, Call)>, a: Address)
    requires RealSenders(creator, calls)
    requires var v := Replay(Run(creator, calls));
             Orphans(v, a) != {} && (a in v.pending || v.nextRequestId < MAX_UINT256)
    ensures var v := Replay(Run(creator, calls));
            var more := SecondCalls(v, a);
            && |more| <= 2 && RealSenders(creator, calls + more)
            && |PendingOf(Replay(Run(creator, calls + more)), a)| >= 2
            && NoEarlyRemoval(creator, calls + more, |calls|)
  {
    var log := Run(creator, calls);
    var v := Replay(log);
    var more := SecondCalls(v, a);
    RunAccounts(creator, calls);
    var r :| r in Orphans(v, a);
    assert a != 0 && v.owner != 0;
    forall entry | entry in calls + more ensures entry.0.sender != 0 {
      assert entry in calls || entry in more;
    }
    if a in v.pending {
      assert calls + more == calls;
      TwoElements(PendingOf(v, a), r, v.pending[a]);
    } else if a in v.contacts {
      RemovedThenSubmitted(creator, calls, a, r);
    } else {
      Submitted(creator, calls, a, r);
      forall k | |calls| <= k < |calls + more|
        ensures !EarlyRemoval(At(creator, calls + more, k), (calls + more)[k].0, (calls + more)[k].1)
      {
        assert (calls + more)[k] == more[0];
      }
    }
  }

  lemma TwoElements(s: set<nat>, a: nat, b: nat)
    requires a in s && b in s && a != b
    ensures |s| >= 2
  {
    SubsetSize({a, b}, s);
  }

  lemma Submitted(creator: Env, calls: seq<(Env, Call)>, a: Address, r: nat)
    requires RealSenders(creator, calls) && a != 0
    requires var v := Replay(Run(creator, calls));
             r in PendingOf(v, a) && a !in v.pending && a !in v.contacts && v.nextRequestId < MAX_UINT256
    ensures |PendingOf(Replay(Run(creator, calls + [(Env(a, 0), SubmitContactRequest([]))])), a)| >= 2
  {
    var log := Run(creator, calls);
    var v := Replay(log);
    RunAccounts(creator, calls);
    RunExtends(creator, calls, Env(a, 0), SubmitContactRequest([]));
    hide Run;
    var e := RequestSubmitted(v.nextRequestId, a, [], 0);
    assert Outcome(v, Env(a, 0), SubmitContactRequest([])) == Ok([e]);
    ReplayOne(log, e);
    PendingAfter(v, e, a);
    TwoElements(PendingOf(Apply(v, e), a), r, e.requestId);
  }

  lemma Removed(creator: Env, calls: seq<(Env, Call)>, a: Address, r: nat)
    requires RealSenders(creator, calls) && a != 0
    requires var v := Replay(Run(creator, calls));
             r in PendingOf(v, a) && a !in v.pending && a in v.contacts
    ensures var v := Replay(Run(creator, calls));
            var after := Replay(Run(creator, calls + [(Env(v.owner, 0), RemoveContact(a))]));
            && r in PendingOf(after, a) && a !in after.pending && a !in after.contacts
            && after.nextRequestId == v.nextRequestId && v.owner != 0
  {
    var log := Run(creator, calls);
    var v := Replay(log);
    RunAccounts(creator, calls);
    RunExtends(creator, calls, Env(v.owner, 0), RemoveContact(a));
    hide Run, Replay;
    var e := ContactRemoved(a, v.owner, 0);
    assert Outcome(v, Env(v.owner, 0), RemoveContact(a)) == Ok([e]);
    ReplayOne(log, e);
    assert PendingOf(Apply(v, e), a) == PendingOf(v, a);
  }

  lemma RemovedThenSubmitted(creator: Env, calls: seq<(Env, Call)>, a: Address, r: nat)
    requires RealSenders(creator, calls) && a != 0
    requires var v := Replay(Run(creator, calls));
             r in PendingOf(v, a) && a !in v.pending && a in v.contacts && v.nextRequestId < MAX_UINT256
    ensures var v := Replay(Run(creator, calls));
            var all := calls + SecondCalls(v, a);
            |PendingOf(Replay(Run(creator, all)), a)| >= 2 && NoEarlyRemoval(creator, all, |calls|)
  {
    hide Run, Replay, PendingOf;
    var more := SecondCalls(Replay(Run(creator, calls)), a);
    Removed(creator, calls, a, r);
    forall entry | entry in calls + [more[0]] ensures entry.0.sender != 0 {
      assert entry in calls || entry == more[0];
    }
    Submitted(creator, calls + [more[0]], a, r);
    var all := calls + more;
    assert all == calls + [more[0]] + [more[1]];
    assert all[..|calls|] == calls && all[|calls|] == more[0] && all[|calls| + 1] == more[1];
  }

  /** However the run goes on, nobody gets a second Pending request unless the owner removes a contact that has
      a recorded one. */
  ghost predicate StaysOne(creator: Env, calls: seq<(Env, Call)>) {
    forall more :: RealSenders(creator, calls + more) && NoEarlyRemoval(creator, calls + more, |calls|)
                   ==> AtMostOne(Replay(Run(creator, calls + more)))
  }

  /** That is so if and only if every Pending request is recorded now, or no more requests can be numbered and
      nobody has two already. */
  lemma OneStaysExactlyWhenLinked(creator: Env, calls: seq<(Env, Call)>)
    requires RealSenders(creator, calls)
    ensures var v := Replay(Run(creator, calls));
            StaysOne(creator, calls) <==> Linked(v) || (AtMostOne(v) && v.nextRequestId == MAX_UINT256)
  {
    var v := Replay(Run(creator, calls));
    RunAccounts(creator, calls);
    assert calls + [] == calls;
    if Linked(v) || (AtMostOne(v) && v.nextRequestId == MAX_UINT256) {
      forall more | RealSenders(creator, calls + more) && NoEarlyRemoval(creator, calls + more, |calls|)
        ensures AtMostOne(Replay(Run(creator, calls + more)))
      {
        ContinuationKeeps(creator, calls, more);
      }
    } else if !AtMostOne(v) {
      assert RealSenders(creator, calls + []) && NoEarlyRemoval(creator, calls + [], |calls|);
    } else {
      var a :| Orphans(v, a) != {};
      OrphanMeansSecond(creator, calls, a);
      assert !AtMostOne(Replay(Run(creator, calls + SecondCalls(v, a))));
    }
  }

  /** Linked, or out of numbers with nobody having two. */
  ghost predicate Calm(v: View) {
    Linked(v) || (AtMostOne(v) && v.nextRequestId == MAX_UINT256)
  }

  lemma CallKeepsCalm(log: seq<Event>, env: Env, call: Call)
    requires Accounts(Replay(log)) && Calm(Replay(log)) && env.sender != 0 && !EarlyRemoval(Replay(log), env, call)
    ensures Calm(Replay(Extended(log, env, call)))
  {
    var v := Replay(log);
    if Linked(v) {
      LinkBreaks(log, env, call);
    } else {
      SecondNeedsSubmit(log, env, call);
      NumbersRunOut(log, env, call);
    }
  }

  lemma NumbersRunOut(log: seq<Event>, env: Env, call: Call)
    requires Accounts(Replay(log)) && env.sender != 0 && Replay(log).nextRequestId == MAX_UINT256
    ensures Replay(Extended(log, env, call)).nextRequestId == MAX_UINT256
  {
    var v := Replay(log);
    if Outcome(v, env, call).Ok? {
      OutcomeFits(v, env, call);
      var events := Outcome(v, env, call).value;
      ReplayOne(log, events[0]);
      if |events| == 2 {
        assert events == [events[0], events[1]];
        ReplayTwo(log, events[0], events[1]);
      } else {
        assert events == [events[0]];
      }
    }
  }

  lemma {:induction false} ContinuationKeeps(creator: Env, calls: seq<(Env, Call)>, more: seq<(Env, Call)>)
    requires RealSenders(creator, calls + more) && NoEarlyRemoval(creator, calls + more, |calls|)
    requires Calm(Replay(Run(creator, calls)))
    ensures Calm(Replay(Run(creator, calls + more))) && AtMostOne(Replay(Run(creator, calls + more)))
    decreases |more|
  {
    var all := calls + more;
    hide Accounts, Calm, EarlyRemoval, Extended;
    if more == [] {
      assert all == calls;
    } else {
      var n := |all| - 1;
      assert all[..n] == calls + more[..|more| - 1];
      forall k | |calls| <= k < n
        ensures !EarlyRemoval(At(creator, all[..n], k), all[..n][k].0, all[..n][k].1)
      {
        AtPrefix(creator, all, n, k);
      }
      ContinuationKeeps(creator, calls, more[..|more| - 1]);
      AtNext(creator, all, n);
      assert all[..n + 1] == all;
      CallKeepsCalm(Run(creator, all[..n]), all[n].0, all[n].1);
    }
    CalmMeansOne(Replay(Run(creator, all)));
  }

  lemma CalmMeansOne(v: View)
    requires Calm(v)
    ensures AtMostOne(v)
  {
    if Linked(v) {
      forall a: Address ensures |PendingOf(v, a)| <= 1 {
        LinkedMeansOne(v, a);
      }
    }
  }

  // ---------------------------------------------------------------------------
  // Such a run
  // ---------------------------------------------------------------------------

  function ReapplyCalls(owner: Address, a: Address): seq<(Env, Call)> {
    [(Env(a, 0), SubmitContactRequest([])), (Env(owner, 0), AddContact(a)),
     (Env(owner, 0), RemoveContact(a)), (Env(a, 0), SubmitContactRequest([]))]
  }

  /** Such a run: apply, be added as a contact, be removed again, apply again. */
  lemma TwoPending(owner: Address, a: Address)
    requires owner != 0 && a != 0 && a != owner
    ensures PendingOf(Replay(Run(Env(owner, 0), ReapplyCalls(owner, a))), a) == {1, 2}
  {
    var creator := Env(owner, 0);
    var c := ReapplyCalls(owner, a);
    var e1, e2 := RequestSubmitted(1, a, [], 0), ContactAdded(a, owner, 0);
    var e3, e4 := ContactRemoved(a, owner, 0), RequestSubmitted(2, a, [], 0);
    var l0 := Created(creator);
    ReplayTwo([], l0[0], l0[1]);
    assert l0 == [] + [l0[0], l0[1]];
    RunExtends(creator, [], c[0].0, c[0].1);
    ReplayOne(l0, e1);
    var l1 := l0 + [e1];
    assert Run(creator, [] + [c[0]]) == l1;
    RunExtends(creator, [] + [c[0]], c[1].0, c[1].1);
    ReplayOne(l1, e2);
    var l2 := l1 + [e2];
    assert Run(creator, [] + [c[0]] + [c[1]]) == l2;
    RunExtends(creator, [] + [c[0]] + [c[1]], c[2].0, c[2].1);
    ReplayOne(l2, e3);
    var l3 := l2 + [e3];
    assert Run(creator, [] + [c[0]] + [c[1]] + [c[2]]) == l3;
    RunExtends(creator, [] + [c[0]] + [c[1]] + [c[2]], c[3].0, c[3].1);
    ReplayOne(l3, e4);
    assert Run(creator, [] + [c[0]] + [c[1]] + [c[2]] + [c[3]]) == l3 + [e4];
    assert c == [] + [c[0]] + [c[1]] + [c[2]] + [c[3]];
    var v := Replay(l3 + [e4]);
    assert v.requests == map[1 := Request(1, a, [], Pending, 0, 0, 0), 2 := Request(2, a, [], Pending, 0, 0, 0)];
    TwoOfOne(v, a);
  }

  lemma TwoOfOne(v: View, a: Address)
    requires v.requests == map[1 := Request(1, a, [], Pending, 0, 0, 0), 2 := Request(2, a, [], Pending, 0, 0, 0)]
    ensures PendingOf(v, a) == {1, 2}
  {
    assert v.requests[1].status == Pending && v.requests[2].status == Pending;
    forall r: nat ensures r in PendingOf(v, a) <==> r == 1 || r == 2 {
    }
  }

  lemma RunExtends(creator: Env, calls: seq<(Env, Call)>, env: Env, call: Call)
    ensures Run(creator, calls + [(env, call)]) == Extended(Run(creator, calls), env, call)
  {
    assert (calls + [(env, call)])[..|calls|] == calls;
  }
}
