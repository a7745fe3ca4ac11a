/** The registry contract (contracts/AssemblerRegistry.sol) seen from outside: the calls it accepts,
    the events they emit, and what the events alone say about its state. */
module RegistryLog {

  const MAX_UINT256: nat := 0xFFFF_FFFF_FFFF_FFFF_FFFF_FFFF_FFFF_FFFF_FFFF_FFFF_FFFF_FFFF_FFFF_FFFF_FFFF_FFFF
  const UINT64: nat := 0x1_0000_0000_0000_0000
  const MAX_NOTE_LENGTH := 256

  /** An account; 0 is the zero address. */
  type Address = nat
  type Bytes32 = nat
  type Bytes = seq<bv8>

  datatype Status = NoRequest | Pending | Approved | Rejected | Cancelled

  datatype Request = Request(
    id: nat,
    applicant: Address,
    note: Bytes,
    status: Status,
    createdAt: nat,
    reviewedAt: nat,
    reviewer: Address)

  datatype Bootnode = Bootnode(id: Bytes32, multiaddr: Bytes, updatedAt: nat)

  datatype Error =
    | NotOwner | InvalidAddress | InvalidBootnode | BootnodeNotFound
    | ContactAlreadyExists | ContactNotFound | AlreadyPending | RequestNotFound | InvalidRequestStatus
    | NotApplicant | AlreadyReviewed | NoteTooLong | Overflow

  datatype Result<T> = Ok(value: T) | Revert(error: Error)

  datatype Event =
    | OwnershipTransferred(previousOwner: Address, newOwner: Address)
    | BootnodeUpserted(id: Bytes32, multiaddr: Bytes, at: nat)
    | BootnodeRemoved(id: Bytes32)
    | ContactAdded(contact: Address, operator: Address, at: nat)
    | ContactRemoved(contact: Address, operator: Address, at: nat)
    | RequestSubmitted(requestId: nat, applicant: Address, note: Bytes, at: nat)
    | RequestApproved(requestId: nat, reviewer: Address, applicant: Address, at: nat)
    | RequestRejected(requestId: nat, reviewer: Address, applicant: Address, at: nat)
    | RequestCancelled(requestId: nat, applicant: Address, at: nat)

  /** Who calls, and in which block. The sender of a transaction is never the zero address. */
  datatype Env = Env(sender: Address, timestamp: nat)

  /** The block's timestamp cut to 64 bits. */
  function Now(env: Env): (now: nat)
    ensures now < 0x1_0000_0000_0000_0000 && (env.timestamp < 0x1_0000_0000_0000_0000 ==> now == env.timestamp)
  {
    env.timestamp % UINT64
  }

  datatype Call =
    | TransferOwnership(newOwner: Address)
    | UpsertBootnode(id: Bytes32, multiaddr: Bytes)
    | RemoveBootnode(id: Bytes32)
    | AddContact(who: Address)
    | RemoveContact(who: Address)
    | SubmitContactRequest(note: Bytes)
    | ApproveRequest(requestId: nat)
    | RejectRequest(requestId: nat)
    | CancelMyPendingRequest(requestId: nat)

  /** The registry without its arrays and position tables. */
  datatype View = View(
    owner: Address,
    bootnodes: map<Bytes32, Bootnode>,
    contacts: set<Address>,
    nextRequestId: nat,
    requests: map<nat, Request>,
    pending: map<Address, nat>,
    reviewedBy: set<(nat, Address)>)

  const BLANK_VIEW := View(0, map[], {}, 1, map[], map[], {})

  // ---------------------------------------------------------------------------
  // What the events say
  // ---------------------------------------------------------------------------

  function Settle(v: View, requestId: nat, status: Status, reviewer: Address, at: nat): View
    requires requestId in v.requests
  {
    var r := v.requests[requestId];
    v.(requests := v.requests[requestId := r.(status := status, reviewedAt := at, reviewer := reviewer)],
       pending := if r.applicant in v.pending && v.pending[r.applicant] == requestId
                  then v.pending - {r.applicant} else v.pending)
  }

  function Apply(v: View, e: Event): View {
    match e
    case OwnershipTransferred(_, newOwner) => v.(owner := newOwner)
    case BootnodeUpserted(id, multiaddr, at) => v.(bootnodes := v.bootnodes[id := Bootnode(id, multiaddr, at)])
    case BootnodeRemoved(id) => v.(bootnodes := v.bootnodes - {id})
    case ContactAdded(contact, _, _) => v.(contacts := v.contacts + {contact})
    case ContactRemoved(contact, _, _) =>
      v.(contacts := v.contacts - {contact}, pending := v.pending - {contact})
    case RequestSubmitted(id, applicant, note, at) =>
      v.(nextRequestId := id + 1,
         requests := v.requests[id := Request(id, applicant, note, Pending, at, 0, 0)],
         pending := v.pending[applicant := id])
    case RequestApproved(id, reviewer, _, at) =>
      if id !in v.requests then v
      else Settle(v, id, Approved, reviewer, at).(reviewedBy := v.reviewedBy + {(id, reviewer)})
    case RequestRejected(id, reviewer, _, at) =>
      if id !in v.requests then v
      else Settle(v, id, Rejected, reviewer, at).(reviewedBy := v.reviewedBy + {(id, reviewer)})
    case RequestCancelled(id, _, at) =>
      if id !in v.requests then v else Settle(v, id, Cancelled, 0, at)
  }

  /** The registry's state as the events alone tell it. */
  function Replay(log: seq<Event>): View {
    if log == [] then BLANK_VIEW else Apply(Replay(log[..|log| - 1]), log[|log| - 1])
  }

  lemma ReplayOne(log: seq<Event>, e: Event)
    ensures Replay(log + [e]) == Apply(Replay(log), e)
  {
    assert (log + [e])[..|log|] == log;
  }

  lemma ReplayTwo(log: seq<Event>, e: Event, f: Event)
    ensures Replay(log + [e, f]) == Apply(Apply(Replay(log), e), f)
  {
    assert log + [e, f] == log + [e] + [f];
    ReplayOne(log, e);
    ReplayOne(log + [e], f);
  }

  // ---------------------------------------------------------------------------
  // What a call does
  // ---------------------------------------------------------------------------

  function AddContactOutcome(v: View, who: Address, operator: Address, at: nat): Result<seq<Event>> {
    if who == 0 then Revert(InvalidAddress)
    else if who in v.contacts then Revert(ContactAlreadyExists)
    else Ok([ContactAdded(who, operator, at)])
  }

  /** Why a review of the request is refused, if it is. */
  function ReviewError(v: View, env: Env, requestId: nat): Result<()> {
    if env.sender != v.owner then Revert(NotOwner)
    else if requestId !in v.requests then Revert(RequestNotFound)
    else if v.requests[requestId].status != Pending then Revert(InvalidRequestStatus)
    else if (requestId, env.sender) in v.reviewedBy then Revert(AlreadyReviewed)
    else Ok(())
  }

  /** The events a call emits, or why it reverts. */
  function Outcome(v: View, env: Env, call: Call): Result<seq<Event>> {
    var at := Now(env);
    match call
    case TransferOwnership(newOwner) =>
      if env.sender != v.owner then Revert(NotOwner)
      else if newOwner == 0 then Revert(InvalidAddress)
      else Ok([OwnershipTransferred(v.owner, newOwner)])
    case UpsertBootnode(id, multiaddr) =>
      if env.sender != v.owner then Revert(NotOwner)
      else if id == 0 || |multiaddr| == 0 then Revert(InvalidBootnode)
      else Ok([BootnodeUpserted(id, multiaddr, at)])
    case RemoveBootnode(id) =>
      if env.sender != v.owner then Revert(NotOwner)
      else if id !in v.bootnodes then Revert(BootnodeNotFound)
      else Ok([BootnodeRemoved(id)])
    case AddContact(who) =>
      if env.sender != v.owner then Revert(NotOwner)
      else AddContactOutcome(v, who, env.sender, at)
    case RemoveContact(who) =>
      if env.sender != v.owner then Revert(NotOwner)
      else if who !in v.contacts then Revert(ContactNotFound)
      else Ok([ContactRemoved(who, env.sender, at)])
    case SubmitContactRequest(note) =>
      if |note| > MAX_NOTE_LENGTH then Revert(NoteTooLong)
      else if env.sender in v.contacts then Revert(ContactAlreadyExists)
      else if env.sender in v.pending then Revert(AlreadyPending)
      else if v.nextRequestId == MAX_UINT256 then Revert(Overflow)
      else Ok([RequestSubmitted(v.nextRequestId, env.sender, note, at)])
    case ApproveRequest(requestId) =>
      (match ReviewError(v, env, requestId)
       case Revert(error) => Revert(error)
       case Ok(_) =>
         var applicant := v.requests[requestId].applicant;
         var approved := RequestApproved(requestId, env.sender, applicant, at);
         if applicant in v.contacts then Ok([approved])
         else
           match AddContactOutcome(v, applicant, env.sender, at)
           case Revert(error) => Revert(error)
           case Ok(added) => Ok(added + [approved]))
    case RejectRequest(requestId) =>
      (match ReviewError(v, env, requestId)
       case Revert(error) => Revert(error)
       case Ok(_) => Ok([RequestRejected(requestId, env.sender, v.requests[requestId].applicant, at)]))
    case CancelMyPendingRequest(requestId) =>
      if requestId !in v.requests then Revert(RequestNotFound)
      else if v.requests[requestId].applicant != env.sender then Revert(NotApplicant)
      else if v.requests[requestId].status != Pending then Revert(InvalidRequestStatus)
      else Ok([RequestCancelled(requestId, env.sender, at)])
  }

  /** The log after a call: a reverted call emits nothing. */
  function Extended(log: seq<Event>, env: Env, call: Call): seq<Event> {
    match Outcome(Replay(log), env, call)
    case Ok(events) => log + events
    case Revert(_) => log
  }

  function Created(env: Env): seq<Event> {
    [OwnershipTransferred(0, env.sender), ContactAdded(env.sender, env.sender, Now(env))]
  }

  /** The log of a registry deployed by the creator after a run of transactions. */
  function Run(creator: Env, calls: seq<(Env, Call)>): seq<Event> {
    if calls == [] then Created(creator)
    else
      var (env, call) := calls[|calls| - 1];
      Extended(Run(creator, calls[..|calls| - 1]), env, call)
  }

  predicate RealSenders(creator: Env, calls: seq<(Env, Call)>) {
    creator.sender != 0 && forall entry | entry in calls :: entry.0.sender != 0
  }

  // ---------------------------------------------------------------------------
  // Accounting
  // ---------------------------------------------------------------------------

  /** A request a reviewer has decided. */
  predicate Reviewed(r: Request) {
    r.status == Approved || r.status == Rejected
  }

  /** The requests of an applicant that are still Pending. */
  function PendingOf(v: View, a: Address): set<nat> {
    set r | r in v.requests && v.requests[r].status == Pending && v.requests[r].applicant == a :: r
  }

  /** Pending requests of an applicant that pendingRequestIdOf no longer points to. */
  function Orphans(v: View, a: Address): set<nat> {
    PendingOf(v, a) - if a in v.pending then {v.pending[a]} else {}
  }

  /** How often an account was removed from the contacts. */
  function Removals(log: seq<Event>, a: Address): nat {
    if log == [] then 0
    else
      Removals(log[..|log| - 1], a)
      + if log[|log| - 1].ContactRemoved? && log[|log| - 1].contact == a then 1 else 0
  }

  /** Requests are numbered 1, 2, ... without gaps, each filed under its own number. */
  ghost predicate Numbered(v: View) {
    && 1 <= v.nextRequestId <= MAX_UINT256
    && (forall r: nat :: r in v.requests <==> 1 <= r < v.nextRequestId)
    && (forall r | r in v.requests ::
          v.requests[r].id == r && v.requests[r].applicant != 0 && v.requests[r].status != NoRequest)
  }

  /** What pendingRequestIdOf records is a Pending request of that applicant. */
  ghost predicate PointsToPending(v: View) {
    forall a | a in v.pending ::
      && v.pending[a] in v.requests
      && v.requests[v.pending[a]].status == Pending && v.requests[v.pending[a]].applicant == a
  }

  /** reviewedBy holds exactly for a decided request and whoever decided it. */
  ghost predicate ReviewersRecorded(v: View) {
    forall r, x :: (r, x) in v.reviewedBy <==>
      r in v.requests && Reviewed(v.requests[r]) && v.requests[r].reviewer == x
  }

  ghost predicate Accounts(v: View) {
    && v.owner != 0 && 0 !in v.contacts
    && (forall id | id in v.bootnodes :: v.bootnodes[id].id == id && id != 0)
    && Numbered(v) && PointsToPending(v) && ReviewersRecorded(v)
  }

  ghost predicate FewOrphans(log: seq<Event>) {
    forall a :: |Orphans(Replay(log), a)| <= Removals(log, a)
  }

  /** The event is one that some call emits when the registry is in this state. */
  predicate Fits(v: View, e: Event) {
    match e
    case OwnershipTransferred(_, newOwner) => newOwner != 0
    case BootnodeUpserted(id, _, _) => id != 0
    case BootnodeRemoved(id) => id in v.bootnodes
    case ContactAdded(contact, _, _) => contact != 0 && contact !in v.contacts
    case ContactRemoved(contact, _, _) => contact in v.contacts
    case RequestSubmitted(id, applicant, _, _) =>
      id == v.nextRequestId < MAX_UINT256 && applicant != 0 && applicant !in v.pending
    case RequestApproved(id, _, _, _) => id in v.requests && v.requests[id].status == Pending
    case RequestRejected(id, _, _, _) => id in v.requests && v.requests[id].status == Pending
    case RequestCancelled(id, _, _) => id in v.requests && v.requests[id].status == Pending
  }

  lemma EventKeepsNumbers(v: View, e: Event)
    requires Numbered(v) && Fits(v, e)
    ensures Numbered(Apply(v, e))
  {
  }

  lemma EventKeepsPointers(v: View, e: Event)
    requires Numbered(v) && PointsToPending(v) && Fits(v, e)
    ensures PointsToPending(Apply(v, e))
  {
  }

  lemma EventKeepsReviewers(v: View, e: Event)
    requires Numbered(v) && ReviewersRecorded(v) && Fits(v, e)
    ensures ReviewersRecorded(Apply(v, e))
  {
    var after := Apply(v, e);
    forall r: nat, x: Address
      ensures (r, x) in after.reviewedBy
              <==> r in after.requests && Reviewed(after.requests[r]) && after.requests[r].reviewer == x
    {
      assert (r, x) in v.reviewedBy <==> r in v.requests && Reviewed(v.requests[r]) && v.requests[r].reviewer == x;
    }
  }

  lemma EventKeepsAccounts(v: View, e: Event)
    requires Accounts(v) && Fits(v, e)
    ensures Accounts(Apply(v, e))
  {
    EventKeepsNumbers(v, e);
    EventKeepsPointers(v, e);
    EventKeepsReviewers(v, e);
    hide Numbered, PointsToPending, ReviewersRecorded;
  }

  /** Decided and cancelled requests never change again. */
  predicate TerminalKept(v: View, after: View) {
    forall r | r in v.requests && v.requests[r].status != Pending ::
      r in after.requests && after.requests[r] == v.requests[r]
  }

  lemma EventKeepsTerminal(v: View, e: Event)
    requires Accounts(v) && Fits(v, e)
    ensures TerminalKept(v, Apply(v, e))
  {
  }

  lemma OrphansChange(v: View, e: Event, a: Address)
    requires Numbered(v) && PointsToPending(v) && Fits(v, e)
    ensures Orphans(Apply(v, e), a)
            <= Orphans(v, a) + if e.ContactRemoved? && e.contact == a && a in v.pending then {v.pending[a]} else {}
  {
  }

  /** Only a contact's removal leaves a Pending request that pendingRequestIdOf does not point to. */
  lemma EventOrphans(v: View, e: Event, a: Address)
    requires Accounts(v) && Fits(v, e)
    ensures |Orphans(Apply(v, e), a)| <= |Orphans(v, a)| + if e.ContactRemoved? && e.contact == a then 1 else 0
  {
    OrphansChange(v, e, a);
    hide Orphans, Apply, Accounts;
    if e.ContactRemoved? && e.contact == a && a in v.pending {
      SubsetSize(Orphans(Apply(v, e), a), Orphans(v, a) + {v.pending[a]});
    } else {
      SubsetSize(Orphans(Apply(v, e), a), Orphans(v, a));
    }
  }

  lemma SubsetSize(a: set<nat>, b: set<nat>)
    requires a <= b
    ensures |a| <= |b|
  {
    assert b == a + (b - a);
  }

  /** One more event. */
  lemma LogKeeps(log: seq<Event>, e: Event)
    requires Accounts(Replay(log)) && FewOrphans(log) && Fits(Replay(log), e)
    ensures Accounts(Replay(log + [e])) && FewOrphans(log + [e])
    ensures TerminalKept(Replay(log), Replay(log + [e]))
  {
    ReplayOne(log, e);
    hide Apply, Fits, Orphans;
    var v := Replay(log);
    EventKeepsAccounts(v, e);
    EventKeepsTerminal(v, e);
    forall a: Address ensures |Orphans(Replay(log + [e]), a)| <= Removals(log + [e], a) {
      EventOrphans(v, e, a);
      assert (log + [e])[..|log|] == log;
    }
  }

  /** A call emits one event that fits, or the two of an approval that also adds the contact. */
  lemma OutcomeFits(v: View, env: Env, call: Call)
    requires Accounts(v) && env.sender != 0 && Outcome(v, env, call).Ok?
    ensures var events := Outcome(v, env, call).value;
            || (|events| == 1 && Fits(v, events[0]))
            || (|events| == 2 && events[0].ContactAdded? && Fits(v, events[0]) && Fits(Apply(v, events[0]), events[1]))
  {
  }

  lemma CallKeeps(log: seq<Event>, env: Env, call: Call)
    requires Accounts(Replay(log)) && FewOrphans(log) && env.sender != 0
    ensures Accounts(Replay(Extended(log, env, call))) && FewOrphans(Extended(log, env, call))
    ensures TerminalKept(Replay(log), Replay(Extended(log, env, call)))
  {
    hide Accounts, FewOrphans, Fits, Replay, Apply;
    var v := Replay(log);
    if Outcome(v, env, call).Ok? {
      OutcomeFits(v, env, call);
      hide Outcome;
      var events := Outcome(v, env, call).value;
      LogKeeps(log, events[0]);
      if |events| == 2 {
        ReplayOne(log, events[0]);
        LogKeeps(log + [events[0]], events[1]);
        assert log + events == log + [events[0]] + [events[1]];
      } else {
        assert events == [events[0]];
      }
    }
  }

  lemma CreationKeeps(creator: Env)
    requires creator.sender != 0
    ensures Accounts(Replay(Created(creator))) && FewOrphans(Created(creator))
  {
    var e, f := OwnershipTransferred(0, creator.sender), ContactAdded(creator.sender, creator.sender, Now(creator));
    assert Created(creator) == [] + [e, f];
    ReplayTwo([], e, f);
    forall a: Address ensures Orphans(Replay(Created(creator)), a) == {} {
    }
  }

  /** What holds of the events of every run. */
  lemma {:induction false} RunAccounts(creator: Env, calls: seq<(Env, Call)>)
    requires RealSenders(creator, calls)
    ensures Accounts(Replay(Run(creator, calls))) && FewOrphans(Run(creator, calls))
  {
    if calls == [] {
      CreationKeeps(creator);
    } else {
      var n := |calls| - 1;
      RunAccounts(creator, calls[..n]);
      CallKeeps(Run(creator, calls[..n]), calls[n].0, calls[n].1);
    }
  }

  /** In every run an applicant has at most one Pending request more than it was removed as a contact. */
  lemma PendingBound(creator: Env, calls: seq<(Env, Call)>, a: Address)
    requires RealSenders(creator, calls)
    ensures var log := Run(creator, calls);
            |PendingOf(Replay(log), a)| <= 1 + Removals(log, a)
  {
    RunAccounts(creator, calls);
    var v := Replay(Run(creator, calls));
    var last := if a in v.pending then {v.pending[a]} else {};
    assert PendingOf(v, a) <= Orphans(v, a) + last;
    SubsetSize(PendingOf(v, a), Orphans(v, a) + last);
  }

  /** A request once decided or cancelled is the same after any further transactions. */
  lemma {:induction false} TerminalForever(creator: Env, calls: seq<(Env, Call)>, k: nat)
    requires RealSenders(creator, calls) && k <= |calls|
    ensures TerminalKept(Replay(Run(creator, calls[..k])), Replay(Run(creator, calls)))
    decreases |calls|
  {
    if k == |calls| {
      assert calls[..k] == calls;
    } else {
      hide Accounts, Extended, Replay, FewOrphans;
      var n := |calls| - 1;
      TerminalForever(creator, calls[..n], k);
      assert calls[..n][..k] == calls[..k];
      RunAccounts(creator, calls[..n]);
      CallKeeps(Run(creator, calls[..n]), calls[n].0, calls[n].1);
    }
  }

  /** AlreadyReviewed is unreachable, and an approval is never refused because of the contact it adds. */
  lemma ReviewsGoThrough(creator: Env, calls: seq<(Env, Call)>, env: Env, requestId: nat)
    requires RealSenders(creator, calls)
    ensures var v := Replay(Run(creator, calls));
            && ReviewError(v, env, requestId) != Revert(AlreadyReviewed)
            && (Outcome(v, env, ApproveRequest(requestId)).Ok? <==>
                  env.sender == v.owner && requestId in v.requests && v.requests[requestId].status == Pending)
            && (Outcome(v, env, RejectRequest(requestId)).Ok? <==>
                  env.sender == v.owner && requestId in v.requests && v.requests[requestId].status == Pending)
  {
    RunAccounts(creator, calls);
    hide Run, Replay;
  }
}
