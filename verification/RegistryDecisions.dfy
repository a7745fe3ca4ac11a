/** What the status of a contact request says of the transactions of a run (contracts/AssemblerRegistry.sol). */
module RegistryDecisions {
  import opened RegistryLog

  /** The k-th transaction of the run went through. */
  ghost predicate Succeeded(creator: Env, calls: seq<(Env, Call)>, k: nat)
    requires k < |calls|
  {
    Outcome(Replay(Run(creator, calls[..k])), calls[k].0, calls[k].1).Ok?
  }

  /** Some transaction of the run made this call, and it went through. */
  ghost predicate Did(creator: Env, calls: seq<(Env, Call)>, call: Call) {
    exists k: nat | k < |calls| :: calls[k].1 == call && Succeeded(creator, calls, k)
  }

  /** One event. */
  lemma EventStatus(v: View, e: Event, r: nat)
    requires Numbered(v) && Fits(v, e)
    ensures var after := Apply(v, e);
            && (r in after.requests <==> r in v.requests || (e.RequestSubmitted? && e.requestId == r))
            && (r in after.requests ==>
                  after.requests[r].status
                  == if e.RequestSubmitted? && e.requestId == r then Pending
                     else if e.RequestApproved? && e.requestId == r then Approved
                     else if e.RequestRejected? && e.requestId == r then Rejected
                     else if e.RequestCancelled? && e.requestId == r then Cancelled
                     else v.requests[r].status)
  {
  }

  /** The request's status after a transaction: the one the call stands for, where it went through, else the one
      before, and Pending for a new request. */
  lemma CallStatus(log: seq<Event>, env: Env, call: Call, r: nat)
    requires Accounts(Replay(log)) && env.sender != 0
    ensures var v, after := Replay(log), Replay(Extended(log, env, call));
            var ok := Outcome(v, env, call).Ok?;
            && (ok && call in [ApproveRequest(r), RejectRequest(r), CancelMyPendingRequest(r)] ==>
                  r in v.requests && v.requests[r].status == Pending)
            && (r in v.requests ==> r in after.requests)
            && (r in after.requests ==>
                  after.requests[r].status
                  == if ok && call == ApproveRequest(r) then Approved
                     else if ok && call == RejectRequest(r) then Rejected
                     else if ok && call == CancelMyPendingRequest(r) then Cancelled
                     else if r in v.requests then v.requests[r].status else Pending)
  {
    hide Replay, Outcome, Apply, Fits, Accounts;
    var v := Replay(log);
    if Outcome(v, env, call).Ok? {
      OutcomeFits(v, env, call);
      OutcomeSays(v, env, call, r);
      var events := Outcome(v, env, call).value;
      ReplayOne(log, events[0]);
      NumberedHere(v);
      EventStatus(v, events[0], r);
      if |events| == 2 {
        assert events == [events[0], events[1]];
        ReplayTwo(log, events[0], events[1]);
        EventKeepsAccounts(v, events[0]);
        NumberedHere(Apply(v, events[0]));
        EventStatus(Apply(v, events[0]), events[1], r);
      } else {
        assert events == [events[0]];
      }
    }
  }

  lemma NumberedHere(v: View)
    requires Accounts(v)
    ensures Numbered(v)
  {
  }

  /** The last event of a call is of the kind the call is, and names the same request. */
  lemma OutcomeSays(v: View, env: Env, call: Call, r: nat)
    requires Accounts(v) && Outcome(v, env, call).Ok?
    ensures var events := Outcome(v, env, call).value;
            && events != []
            && var last := events[|events| - 1];
               && (call == ApproveRequest(r) <==> last.RequestApproved? && last.requestId == r)
               && (call == RejectRequest(r) <==> last.RequestRejected? && last.requestId == r)
               && (call == CancelMyPendingRequest(r) <==> last.RequestCancelled? && last.requestId == r)
               && (last.RequestSubmitted? ==> last.requestId !in v.requests)
    ensures call in [ApproveRequest(r), RejectRequest(r), CancelMyPendingRequest(r)] ==>
              r in v.requests && v.requests[r].status == Pending
  {
  }

  lemma DidExtends(creator: Env, calls: seq<(Env, Call)>, call: Call)
    requires calls != []
    ensures var n := |calls| - 1;
            Did(creator, calls, call)
            <==> Did(creator, calls[..n], call) || (calls[n].1 == call && Succeeded(creator, calls, n))
  {
    var n := |calls| - 1;
    hide Run, Replay, Outcome;
    forall k: nat | k < n ensures Succeeded(creator, calls[..n], k) <==> Succeeded(creator, calls, k) {
      assert calls[..n][..k] == calls[..k];
    }
    if k: nat :| k < n && calls[..n][k].1 == call && Succeeded(creator, calls[..n], k) {
      assert calls[k].1 == call && Succeeded(creator, calls, k);
    }
    if k: nat :| k < |calls| && calls[k].1 == call && Succeeded(creator, calls, k) {
      if k < n { assert calls[..n][k].1 == call && Succeeded(creator, calls[..n], k); }
    }
  }

  ghost predicate StatusTold(creator: Env, calls: seq<(Env, Call)>, r: nat) {
    var v := Replay(Run(creator, calls));
    var approved, rejected := Did(creator, calls, ApproveRequest(r)), Did(creator, calls, RejectRequest(r));
    var cancelled := Did(creator, calls, CancelMyPendingRequest(r));
    if r in v.requests
    then && (v.requests[r].status == Approved <==> approved)
         && (v.requests[r].status == Rejected <==> rejected)
         && (v.requests[r].status == Cancelled <==> cancelled)
         && (v.requests[r].status == Pending <==> !approved && !rejected && !cancelled)
    else !approved && !rejected && !cancelled
  }

  /** In every run a request is Approved, Rejected or Cancelled exactly when a transaction that approves, rejects or
      cancels it went through, and Pending when none did. */
  lemma {:induction false} StatusTellsTheCall(creator: Env, calls: seq<(Env, Call)>, r: nat)
    requires RealSenders(creator, calls)
    ensures StatusTold(creator, calls, r)
  {
    if calls == [] {
      NoRequestsYet(creator);
    } else {
      var n := |calls| - 1;
      StatusTellsTheCall(creator, calls[..n], r);
      RunAccounts(creator, calls[..n]);
      assert calls[n] in calls;
      hide Replay, Outcome, Accounts, Did;
      CallStatus(Run(creator, calls[..n]), calls[n].0, calls[n].1, r);
      DidExtends(creator, calls, ApproveRequest(r));
      DidExtends(creator, calls, RejectRequest(r));
      DidExtends(creator, calls, CancelMyPendingRequest(r));
    }
  }

  lemma NoRequestsYet(creator: Env)
    ensures Replay(Run(creator, [])).requests == map[]
  {
    var e, f := Created(creator)[0], Created(creator)[1];
    assert Created(creator) == [] + [e, f];
    ReplayTwo([], e, f);
  }
}
