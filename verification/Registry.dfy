/** The registry contract (contracts/AssemblerRegistry.sol) as it stores things: arrays with position
    tables, swap-and-pop removal, mappings that read as zero where nothing was written. Every transaction is
    proved to leave exactly the state its events tell (module RegistryLog), or nothing changed when it reverts. */
module Registry {
  import opened RegistryLog

  /** Reads a mapping; keys never written hold the zero value. */
  function Read<K, V>(m: map<K, V>, k: K, zero: V): V {
    if k in m then m[k] else zero
  }

  const NO_REQUEST := Request(0, 0, [], NoRequest, 0, 0, 0)
  const NO_BOOTNODE := Bootnode(0, [], 0)

  /** An enumerable set: the array lists each member once, and the position table is its inverse, counted from 1. */
  ghost predicate Enumerates<T>(list: seq<T>, posPlusOne: map<T, nat>) {
    && (forall i | 0 <= i < |list| :: Read(posPlusOne, list[i], 0) == i + 1)
    && (forall x | x in posPlusOne && posPlusOne[x] != 0 :: posPlusOne[x] <= |list| && list[posPlusOne[x] - 1] == x)
  }

  lemma EnumeratesMembers<T>(list: seq<T>, posPlusOne: map<T, nat>)
    requires Enumerates(list, posPlusOne)
    ensures forall x :: x in list <==> Read(posPlusOne, x, 0) != 0
    ensures forall i, j | 0 <= i < j < |list| :: list[i] != list[j]
  {
  }

  /** Swap-and-pop: the last element takes the removed one's place. */
  function SwapPop<T>(list: seq<T>, i: nat): (rest: seq<T>)
    requires i < |list|
    ensures |rest| == |list| - 1
  {
    list[i := list[|list| - 1]][..|list| - 1]
  }

  lemma PushKeeps<T>(list: seq<T>, posPlusOne: map<T, nat>, x: T)
    requires Enumerates(list, posPlusOne) && Read(posPlusOne, x, 0) == 0
    ensures Enumerates(list + [x], posPlusOne[x := |list| + 1])
  {
    EnumeratesMembers(list, posPlusOne);
  }

  lemma SwapPopKeeps<T>(list: seq<T>, posPlusOne: map<T, nat>, x: T)
    requires Enumerates(list, posPlusOne) && Read(posPlusOne, x, 0) != 0
    ensures var i := posPlusOne[x] - 1;
            Enumerates(SwapPop(list, i), posPlusOne[list[|list| - 1] := i + 1] - {x})
  {
    EnumeratesMembers(list, posPlusOne);
  }

  /** The list after x was removed by swap-and-pop. */
  ghost predicate Removed<T>(list: seq<T>, rest: seq<T>, x: T) {
    exists i: nat | i < |list| :: list[i] == x && rest == SwapPop(list, i)
  }

  /** The steps of a removal, which move nothing when the element removed is the last one. */
  lemma RemovalSteps<T>(list: seq<T>, posPlusOne: map<T, nat>, x: T)
    requires Enumerates(list, posPlusOne) && Read(posPlusOne, x, 0) != 0
    ensures var idx, last := posPlusOne[x] - 1, |list| - 1;
            && idx <= last && Read(posPlusOne, list[last], 0) != 0
            && var rest := (if idx != last then list[idx := list[last]] else list)[..last];
               var positions := (if idx != last then posPlusOne[list[last] := idx + 1] else posPlusOne) - {x};
               && Enumerates(rest, positions) && Removed(list, rest, x)
               && positions == posPlusOne[list[last] := idx + 1] - {x}
  {
    SwapPopKeeps(list, posPlusOne, x);
    var idx, last := posPlusOne[x] - 1, |list| - 1;
    assert list[idx] == x;
    if idx == last {
      assert list[idx := list[last]] == list;
      assert posPlusOne[x := idx + 1] == posPlusOne;
    }
  }

  /** What a caller learns of a transaction. */
  function Done(outcome: Result<seq<Event>>): Result<()> {
    match outcome
    case Ok(_) => Ok(())
    case Revert(error) => Revert(error)
  }

  // ---------------------------------------------------------------------------
  // Listings
  // ---------------------------------------------------------------------------

  /** One page of a listing. The end of the page is a checked sum, which reverts above 2^256 - 1. */
  function Page<T>(list: seq<T>, offset: nat, limit: nat): Result<seq<T>> {
    if offset >= |list| || limit == 0 then Ok([])
    else if offset + limit > MAX_UINT256 then Revert(Overflow)
    else Ok(list[offset..if offset + limit > |list| then |list| else offset + limit])
  }

  /** A page holds the elements from the offset on, as many as asked for or as there are; it reverts exactly when it
      would start inside the list and its end is not a 256-bit number. */
  lemma PageCuts<T>(list: seq<T>, offset: nat, limit: nat)
    ensures Page(list, offset, limit).Revert? <==> offset < |list| && limit > 0 && offset + limit > MAX_UINT256
    ensures Page(list, offset, limit).Ok? ==>
              var page := Page(list, offset, limit).value;
              && |page| == (if offset >= |list| then 0 else if limit <= |list| - offset then limit else |list| - offset)
              && forall k | 0 <= k < |page| :: page[k] == list[offset + k]
  {
  }

  /** What a reader gets who asks for page after page until the end. */
  function Pages<T>(list: seq<T>, offset: nat, limit: nat): Result<seq<T>>
    requires limit > 0
    decreases if offset < |list| then |list| - offset else 0
  {
    if offset >= |list| then Ok([])
    else
      match Page(list, offset, limit)
      case Revert(error) => Revert(error)
      case Ok(page) =>
        match Pages(list, offset + limit, limit)
        case Revert(error) => Revert(error)
        case Ok(rest) => Ok(page + rest)
  }

  /** Where the last page starts for a list of this length. */
  function LastPage(length: nat, offset: nat, limit: nat): nat
    requires limit > 0
    decreases if offset < length then length - offset else 0
  {
    if offset + limit >= length then offset else LastPage(length, offset + limit, limit)
  }

  /** Reading page after page gives the whole list from the offset on; it reverts exactly when the
      end of the last page is not a 256-bit number. */
  lemma {:induction false} PagesAreComplete<T>(list: seq<T>, offset: nat, limit: nat)
    requires limit > 0 && offset <= |list|
    ensures Pages(list, offset, limit)
            == if offset < |list| && LastPage(|list|, offset, limit) + limit > MAX_UINT256 then Revert(Overflow)
               else Ok(list[offset..])
    decreases |list| - offset
  {
    if offset + limit < |list| {
      PagesAreComplete(list, offset + limit, limit);
      LaterPage(|list|, offset + limit, limit);
      assert list[offset..offset + limit] + list[offset + limit..] == list[offset..];
    } else if offset < |list| {
      assert Pages(list, offset + limit, limit) == Ok([]);
      assert list[offset..|list|] + [] == list[offset..];
    } else {
      assert list[offset..] == [];
    }
  }

  lemma {:induction false} LaterPage(length: nat, offset: nat, limit: nat)
    requires limit > 0
    ensures LastPage(length, offset, limit) >= offset
    decreases if offset < length then length - offset else 0
  {
    if offset + limit < length {
      LaterPage(length, offset + limit, limit);
    }
  }

  /** Every member of the set is listed, and on one place only, by the pages together. */
  lemma EachMemberListedOnce<T>(list: seq<T>, posPlusOne: map<T, nat>, limit: nat, x: T)
    requires Enumerates(list, posPlusOne) && limit > 0 && Pages(list, 0, limit).Ok?
    ensures multiset(Pages(list, 0, limit).value)[x] == if Read(posPlusOne, x, 0) != 0 then 1 else 0
  {
    PagesAreComplete(list, 0, limit);
    assert list[0..] == list;
    EnumeratesMembers(list, posPlusOne);
    OnceEach(list, x);
  }

  lemma {:induction false} OnceEach<T>(list: seq<T>, x: T)
    requires forall i, j | 0 <= i < j < |list| :: list[i] != list[j]
    ensures multiset(list)[x] == if x in list then 1 else 0
  {
    if list != [] {
      var n := |list| - 1;
      OnceEach(list[..n], x);
      assert list == list[..n] + [list[n]];
    }
  }

  // ---------------------------------------------------------------------------
  // Storage as the getters show it
  // ---------------------------------------------------------------------------

  ghost predicate BootnodesShown(pos: map<Bytes32, nat>, table: map<Bytes32, Bootnode>, shown: map<Bytes32, Bootnode>) {
    && (forall id :: Read(pos, id, 0) != 0 <==> id in shown)
    && (forall id | id in shown :: Read(table, id, NO_BOOTNODE) == shown[id])
  }

  ghost predicate ContactsShown(flags: map<Address, bool>, shown: set<Address>) {
    forall a :: Read(flags, a, false) <==> a in shown
  }

  ghost predicate RequestsShown(table: map<nat, Request>, shown: map<nat, Request>) {
    && (forall r :: Read(table, r, NO_REQUEST).id != 0 <==> r in shown)
    && (forall r | r in shown :: Read(table, r, NO_REQUEST) == shown[r])
  }

  ghost predicate PendingShown(table: map<Address, nat>, shown: map<Address, nat>) {
    forall a :: Read(table, a, 0) == if a in shown then shown[a] else 0
  }

  ghost predicate ReviewersShown(table: map<(nat, Address), bool>, shown: set<(nat, Address)>) {
    forall entry :: Read(table, entry, false) <==> entry in shown
  }

  /** Where the tables have an entry, and only there, the events tell of the same. */
  lemma RecordsHere(v: View, pending: map<Address, nat>, table: map<nat, Request>, a: Address, r: nat)
    requires Accounts(v) && PendingShown(pending, v.pending) && RequestsShown(table, v.requests)
    ensures Read(pending, a, 0) != 0 <==> a in v.pending
    ensures a in v.pending ==> Read(pending, a, 0) == v.pending[a]
    ensures Read(table, r, NO_REQUEST).id != 0 <==> r in v.requests
    ensures r in v.requests ==> Read(table, r, NO_REQUEST) == v.requests[r] && r == v.requests[r].id
  {
  }

  lemma ApplicantIsSomeone(v: View, r: nat)
    requires Accounts(v) && r in v.requests
    ensures v.requests[r].applicant != 0
  {
  }

  /** A listed set: the list holds each member of the shown set exactly once. */
  lemma ListIsSet<T>(list: seq<T>, posPlusOne: map<T, nat>, shown: set<T>)
    requires Enumerates(list, posPlusOne) && forall x :: x in shown <==> Read(posPlusOne, x, 0) != 0
    ensures multiset(list) == multiset(shown)
  {
    EnumeratesMembers(list, posPlusOne);
    forall x: T ensures multiset(list)[x] == multiset(shown)[x] {
      OnceEach(list, x);
    }
  }

  /** What an approval emits first: the new contact, unless the applicant is one already. */
  ghost function AdmissionEvents(v: View, env: Env, applicant: Address): seq<Event> {
    if applicant in v.contacts then [] else [ContactAdded(applicant, env.sender, Now(env))]
  }

  ghost function Admitted(v: View, applicant: Address): View {
    v.(contacts := v.contacts + {applicant})
  }

  /** An approval in the view the contact was added to. */
  lemma ApprovalTold(v: View, env: Env, requestId: nat)
    requires Accounts(v) && ReviewError(v, env, requestId).Ok?
    ensures var applicant := v.requests[requestId].applicant;
            var approved := RequestApproved(requestId, env.sender, applicant, Now(env));
            var settled := Settle(v, requestId, Approved, env.sender, Now(env));
            && Outcome(v, env, RegistryLog.ApproveRequest(requestId))
               == Ok(AdmissionEvents(v, env, applicant) + [approved])
            && Fits(Admitted(v, applicant), approved)
            && Apply(Admitted(v, applicant), approved)
               == settled.(contacts := Admitted(v, applicant).contacts,
                           reviewedBy := v.reviewedBy + {(requestId, env.sender)})
  {
    var approved := RequestApproved(requestId, env.sender, v.requests[requestId].applicant, Now(env));
    assert [] + [approved] == [approved];
  }

  lemma NextNumber(v: View)
    requires Accounts(v)
    ensures 1 <= v.nextRequestId <= MAX_UINT256
  {
  }

  lemma UpsertShown(pos: map<Bytes32, nat>, table: map<Bytes32, Bootnode>, shown: map<Bytes32, Bootnode>,
                    id: Bytes32, node: Bootnode, n: nat)
    requires BootnodesShown(pos, table, shown) && n > 0
    ensures BootnodesShown(if Read(pos, id, 0) == 0 then pos[id := n] else pos, table[id := node], shown[id := node])
  {
  }

  lemma NodeShown(pos: map<Bytes32, nat>, table: map<Bytes32, Bootnode>, shown: map<Bytes32, Bootnode>, id: Bytes32)
    requires BootnodesShown(pos, table, shown)
    ensures Read(pos, id, 0) != 0 <==> id in shown
    ensures id in shown ==> Read(table, id, NO_BOOTNODE) == shown[id]
  {
  }

  lemma RemovalShown(pos: map<Bytes32, nat>, table: map<Bytes32, Bootnode>, shown: map<Bytes32, Bootnode>,
                     id: Bytes32, moved: Bytes32, n: nat)
    requires BootnodesShown(pos, table, shown) && n > 0 && Read(pos, moved, 0) != 0
    ensures BootnodesShown(pos[moved := n] - {id}, table - {id}, shown - {id})
  {
  }

  /** The membership flag is set exactly for the members. */
  ghost predicate FlagsAgree(flags: map<Address, bool>, pos: map<Address, nat>) {
    forall a :: Read(flags, a, false) <==> Read(pos, a, 0) != 0
  }

  lemma FlagsAgreeAt(flags: map<Address, bool>, pos: map<Address, nat>, who: Address)
    requires FlagsAgree(flags, pos)
    ensures Read(flags, who, false) <==> Read(pos, who, 0) != 0
  {
  }

  lemma FlagsAgreeWith(flags: map<Address, bool>, pos: map<Address, nat>, who: Address, n: nat)
    requires FlagsAgree(flags, pos) && n > 0
    ensures FlagsAgree(flags[who := true], pos[who := n])
  {
    var flags', pos' := flags[who := true], pos[who := n];
    forall a: Address ensures Read(flags', a, false) <==> Read(pos', a, 0) != 0 {
      assert Read(flags, a, false) <==> Read(pos, a, 0) != 0;
    }
  }

  lemma FlagsAgreeWithout(flags: map<Address, bool>, pos: map<Address, nat>, who: Address, moved: Address, n: nat)
    requires FlagsAgree(flags, pos) && n > 0 && Read(pos, moved, 0) != 0
    ensures FlagsAgree(flags[who := false], pos[moved := n] - {who})
  {
    var flags', pos' := flags[who := false], pos[moved := n] - {who};
    forall a: Address ensures Read(flags', a, false) <==> Read(pos', a, 0) != 0 {
      assert Read(flags, a, false) <==> Read(pos, a, 0) != 0;
    }
  }

  lemma ContactShown(flags: map<Address, bool>, shown: set<Address>, who: Address, listed: bool)
    requires ContactsShown(flags, shown)
    ensures ContactsShown(flags[who := listed], if listed then shown + {who} else shown - {who})
    ensures Read(flags, who, false) <==> who in shown
  {
    assert forall a | a != who :: Read(flags[who := listed], a, false) == Read(flags, a, false);
  }

  lemma RequestShown(table: map<nat, Request>, shown: map<nat, Request>, r: Request)
    requires RequestsShown(table, shown) && r.id != 0
    ensures RequestsShown(table[r.id := r], shown[r.id := r])
  {
    assert forall k | k != r.id :: Read(table[r.id := r], k, NO_REQUEST) == Read(table, k, NO_REQUEST);
  }

  lemma PendingRecorded(table: map<Address, nat>, shown: map<Address, nat>, a: Address, r: nat)
    requires PendingShown(table, shown)
    ensures PendingShown(table[a := r], shown[a := r])
    ensures PendingShown(table[a := 0], shown - {a})
    ensures Read(table, a, 0) == 0 ==> PendingShown(table, shown - {a})
  {
    assert forall b | b != a :: Read(table[a := r], b, 0) == Read(table, b, 0) == Read(table[a := 0], b, 0);
  }

  lemma ReviewShown(table: map<(nat, Address), bool>, shown: set<(nat, Address)>, entry: (nat, Address))
    requires ReviewersShown(table, shown)
    ensures ReviewersShown(table[entry := true], shown + {entry})
    ensures Read(table, entry, false) <==> entry in shown
  {
    assert forall e | e != entry :: Read(table[entry := true], e, false) == Read(table, e, false);
  }

  lemma BlankShown()
    ensures BootnodesShown(map[], map[], map[]) && ContactsShown(map[], {}) && RequestsShown(map[], map[])
    ensures PendingShown(map[], map[]) && ReviewersShown(map[], {})
    ensures Enumerates<Address>([], map[]) && FlagsAgree(map[], map[])
  {
  }

  lemma CreationTold(env: Env)
    requires env.sender != 0
    ensures Accounts(Replay(Created(env)))
    ensures Replay(Created(env)) == BLANK_VIEW.(owner := env.sender, contacts := {env.sender})
  {
    CreationKeeps(env);
    ReplayTwo([], Created(env)[0], Created(env)[1]);
    assert [] + [Created(env)[0], Created(env)[1]] == Created(env);
    assert {} + {env.sender} == {env.sender};
  }

  /** The request is on record with this end, and the rest about it and all other requests are as before. */
  ghost predicate Ended(before: map<nat, Request>, after: map<nat, Request>, r: nat, status: Status, at: nat,
                        reviewer: Address)
  {
    && (forall i | i != r :: Read(after, i, NO_REQUEST) == Read(before, i, NO_REQUEST))
    && var was, now := Read(before, r, NO_REQUEST), Read(after, r, NO_REQUEST);
       && now.status == status && now.reviewedAt == at && now.reviewer == reviewer
       && (now.id, now.applicant, now.note, now.createdAt) == (was.id, was.applicant, was.note, was.createdAt)
  }

  /** The applicant's pending id is cleared if it is this request; no other is touched. */
  predicate Cleared(before: map<Address, nat>, after: map<Address, nat>, applicant: Address, r: nat) {
    after == if Read(before, applicant, 0) == r then before[applicant := 0] else before
  }

  /** The account is a contact afterwards: a new one at the end of the list, or it was one already. */
  predicate Joined(list: seq<Address>, flags: map<Address, bool>, list': seq<Address>, flags': map<Address, bool>,
          who: Address)
  {
    if Read(flags, who, false) then list' == list && flags' == flags
    else list' == list + [who] && flags' == flags[who := true]
  }

  lemma RequestEnds(table: map<nat, Request>, r: nat, status: Status, at: nat, reviewer: Address)
    ensures var settled := Read(table, r, NO_REQUEST).(status := status, reviewedAt := at, reviewer := reviewer);
            Ended(table, table[r := settled], r, status, at, reviewer)
  {
  }

  /** What a transaction leaves: the log grown by what the call emits, and the caller told so. */
  predicate Transacted(before: seq<Event>, after: seq<Event>, env: Env, call: Call, r: Result<()>) {
    after == Extended(before, env, call) && r == Done(Outcome(Replay(before), env, call))
  }

  class AssemblerRegistry {
    var owner: Address
    var bootnodeIds: seq<Bytes32>
    var bootnodes: map<Bytes32, Bootnode>
    var bootnodePosPlusOne: map<Bytes32, nat>
    var contacts: seq<Address>
    var isContact: map<Address, bool>
    var contactPosPlusOne: map<Address, nat>
    var nextRequestId: nat
    var requests: map<nat, Request>
    var pendingRequestIdOf: map<Address, nat>
    var reviewedBy: map<(nat, Address), bool>
    /** The events emitted so far. */
    var log: seq<Event>

    /** The getters show just this state. */
    ghost predicate Shows(v: View)
      reads this
    {
      && owner == v.owner && nextRequestId == v.nextRequestId
      && BootnodesShown(bootnodePosPlusOne, bootnodes, v.bootnodes)
      && ContactsShown(isContact, v.contacts)
      && RequestsShown(requests, v.requests)
      && PendingShown(pendingRequestIdOf, v.pending)
      && ReviewersShown(reviewedBy, v.reviewedBy)
    }

    /** The contact list, its position table and the membership flags agree. */
    ghost predicate ContactsAgree()
      reads this
    {
      && Enumerates(contacts, contactPosPlusOne)
      && FlagsAgree(isContact, contactPosPlusOne)
    }

    /** Storage is what the events tell, and both enumerable sets are exact. */
    ghost predicate Valid()
      reads this
    {
      && Accounts(Replay(log)) && Shows(Replay(log))
      && ContactsAgree() && Enumerates(bootnodeIds, bootnodePosPlusOne)
    }

    constructor (env: Env)
      requires env.sender != 0
      ensures Valid() && log == Created(env)
      ensures owner == env.sender && contacts == [env.sender] && bootnodeIds == [] && nextRequestId == 1
      ensures log == [OwnershipTransferred(0, env.sender), ContactAdded(env.sender, env.sender, Now(env))]
    {
      owner := env.sender;
      bootnodeIds, bootnodes, bootnodePosPlusOne := [], map[], map[];
      contacts, isContact, contactPosPlusOne := [], map[], map[];
      nextRequestId, requests, pendingRequestIdOf, reviewedBy := 1, map[], map[], map[];
      log := [OwnershipTransferred(0, env.sender)];
      new;
      hide Accounts, Replay, Enumerates, FlagsAgree, Removed, BootnodesShown, ContactsShown, RequestsShown,
           PendingShown, ReviewersShown;
      BlankShown();
      ContactShown(isContact, {}, env.sender, true);
      CreationTold(env);
      var added := AddContactInternal(env.sender, env.sender, Now(env));
      assert contacts == [env.sender];
      assert log == Created(env);
    }

    /** Appends an event that fits the state told so far. */
    method Emit(e: Event)
      requires Accounts(Replay(log)) && Fits(Replay(log), e)
      modifies this`log
      ensures log == old(log) + [e]
      ensures Replay(log) == Apply(Replay(old(log)), e) && Accounts(Replay(log))
    {
      ReplayOne(log, e);
      EventKeepsAccounts(Replay(log), e);
      log := log + [e];
    }

    method TransferOwnership(env: Env, newOwner: Address) returns (r: Result<()>)
      requires Valid() && env.sender != 0
      modifies this`owner, this`log
      ensures Valid() && Transacted(old(log), log, env, RegistryLog.TransferOwnership(newOwner), r)
      ensures r == if env.sender != old(owner) then Revert(NotOwner)
                   else if newOwner == 0 then Revert(InvalidAddress) else Ok(())
      ensures r.Ok? ==> owner == newOwner && log == old(log) + [OwnershipTransferred(old(owner), newOwner)]
      ensures r.Revert? ==> unchanged(this)
    {
      hide Accounts, Replay, Enumerates, FlagsAgree, BootnodesShown, ContactsShown, RequestsShown, PendingShown,
           ReviewersShown;
      if env.sender != owner { return Revert(NotOwner); }
      if newOwner == 0 { return Revert(InvalidAddress); }
      var prev := owner;
      owner := newOwner;
      Emit(OwnershipTransferred(prev, newOwner));
      return Ok(());
    }

    method UpsertBootnode(env: Env, id: Bytes32, multiaddr: Bytes) returns (r: Result<()>)
      requires Valid() && env.sender != 0
      modifies this`bootnodeIds, this`bootnodes, this`bootnodePosPlusOne, this`log
      ensures Valid() && Transacted(old(log), log, env, RegistryLog.UpsertBootnode(id, multiaddr), r)
      ensures r == if env.sender != owner then Revert(NotOwner)
                   else if id == 0 || multiaddr == [] then Revert(InvalidBootnode) else Ok(())
      ensures r.Ok? ==>
                && bootnodes == old(bootnodes)[id := Bootnode(id, multiaddr, Now(env))]
                && log == old(log) + [BootnodeUpserted(id, multiaddr, Now(env))]
      ensures r.Revert? ==> unchanged(this)
      ensures r.Ok? ==> bootnodeIds == old(bootnodeIds) + if id in old(bootnodeIds) then [] else [id]
    {
      hide Accounts, Replay, Enumerates, FlagsAgree, BootnodesShown, ContactsShown, RequestsShown, PendingShown,
           ReviewersShown;
      if env.sender != owner { return Revert(NotOwner); }
      if id == 0 || |multiaddr| == 0 { return Revert(InvalidBootnode); }
      EnumeratesMembers(bootnodeIds, bootnodePosPlusOne);
      var entry := Bootnode(id, multiaddr, Now(env));
      UpsertShown(bootnodePosPlusOne, bootnodes, Replay(log).bootnodes, id, entry, |bootnodeIds| + 1);
      if Read(bootnodePosPlusOne, id, 0) == 0 {
        PushKeeps(bootnodeIds, bootnodePosPlusOne, id);
        bootnodeIds := bootnodeIds + [id];
        bootnodePosPlusOne := bootnodePosPlusOne[id := |bootnodeIds|];
      }
      bootnodes := bootnodes[id := entry];
      Emit(BootnodeUpserted(id, multiaddr, Now(env)));
      return Ok(());
    }

    method RemoveBootnode(env: Env, id: Bytes32) returns (r: Result<()>)
      requires Valid() && env.sender != 0
      modifies this`bootnodeIds, this`bootnodes, this`bootnodePosPlusOne, this`log
      ensures Valid() && Transacted(old(log), log, env, RegistryLog.RemoveBootnode(id), r)
      ensures r == if env.sender != owner then Revert(NotOwner)
                   else if Read(old(bootnodePosPlusOne), id, 0) == 0 then Revert(BootnodeNotFound) else Ok(())
      ensures r.Ok? ==> bootnodes == old(bootnodes) - {id} && log == old(log) + [BootnodeRemoved(id)]
      ensures r.Revert? ==> unchanged(this)
      ensures r.Ok? ==> Removed(old(bootnodeIds), bootnodeIds, id)
    {
      hide Accounts, Replay, Enumerates, FlagsAgree, Removed, BootnodesShown, ContactsShown, RequestsShown,
           PendingShown, ReviewersShown;
      NodeShown(bootnodePosPlusOne, bootnodes, Replay(log).bootnodes, id);
      if env.sender != owner { return Revert(NotOwner); }
      if Read(bootnodePosPlusOne, id, 0) == 0 { return Revert(BootnodeNotFound); }
      PopBootnodeId(id, Replay(log).bootnodes);
      bootnodes := bootnodes - {id};
      Emit(BootnodeRemoved(id));
      return Ok(());
    }

    /** The swap-and-pop of a removal. */
    method PopBootnodeId(id: Bytes32, ghost shown: map<Bytes32, Bootnode>)
      requires Enumerates(bootnodeIds, bootnodePosPlusOne) && Read(bootnodePosPlusOne, id, 0) != 0
      requires BootnodesShown(bootnodePosPlusOne, bootnodes, shown)
      modifies this`bootnodeIds, this`bootnodePosPlusOne
      ensures Enumerates(bootnodeIds, bootnodePosPlusOne) && Removed(old(bootnodeIds), bootnodeIds, id)
      ensures BootnodesShown(bootnodePosPlusOne, bootnodes - {id}, shown - {id})
    {
      hide Enumerates, Removed, BootnodesShown;
      RemovalSteps(bootnodeIds, bootnodePosPlusOne, id);
      var idx := bootnodePosPlusOne[id] - 1;
      var last := |bootnodeIds| - 1;
      var moved := bootnodeIds[last];
      RemovalShown(bootnodePosPlusOne, bootnodes, shown, id, moved, idx + 1);
      if idx != last {
        bootnodeIds := bootnodeIds[idx := moved];
        bootnodePosPlusOne := bootnodePosPlusOne[moved := idx + 1];
      }
      bootnodeIds := bootnodeIds[..|bootnodeIds| - 1];
      bootnodePosPlusOne := bootnodePosPlusOne - {id};
    }

    method AddContactInternal(who: Address, operator: Address, at: nat) returns (r: Result<()>)
      requires ContactsAgree()
      modifies this`contacts, this`isContact, this`contactPosPlusOne, this`log
      ensures ContactsAgree()
      ensures r == if who == 0 then Revert(InvalidAddress)
                   else if Read(old(isContact), who, false) then Revert(ContactAlreadyExists) else Ok(())
      ensures r.Revert? ==> unchanged(this)
      ensures r.Ok? ==> contacts == old(contacts) + [who] && isContact == old(isContact)[who := true]
                        && log == old(log) + [ContactAdded(who, operator, at)]
    {
      if who == 0 { return Revert(InvalidAddress); }
      if Read(isContact, who, false) { return Revert(ContactAlreadyExists); }
      FlagsAgreeWith(isContact, contactPosPlusOne, who, |contacts| + 1);
      PushKeeps(contacts, contactPosPlusOne, who);
      hide Enumerates, FlagsAgree;
      isContact := isContact[who := true];
      contacts := contacts + [who];
      contactPosPlusOne := contactPosPlusOne[who := |contacts|];
      log := log + [ContactAdded(who, operator, at)];
      return Ok(());
    }

    method AddContact(env: Env, who: Address) returns (r: Result<()>)
      requires Valid() && env.sender != 0
      modifies this`contacts, this`isContact, this`contactPosPlusOne, this`log
      ensures Valid() && Transacted(old(log), log, env, RegistryLog.AddContact(who), r)
      ensures r == if env.sender != owner then Revert(NotOwner)
                   else if who == 0 then Revert(InvalidAddress)
                   else if Read(old(isContact), who, false) then Revert(ContactAlreadyExists) else Ok(())
      ensures r.Ok? ==>
                && isContact == old(isContact)[who := true]
                && log == old(log) + [ContactAdded(who, env.sender, Now(env))]
      ensures r.Revert? ==> unchanged(this)
      ensures r.Ok? ==> contacts == old(contacts) + [who]
    {
      hide Accounts, Replay, Enumerates, FlagsAgree, BootnodesShown, RequestsShown, PendingShown, ReviewersShown;
      if env.sender != owner { return Revert(NotOwner); }
      ghost var before := Replay(log);
      ContactShown(isContact, before.contacts, who, true);
      assert Read(isContact, who, false) <==> who in before.contacts;
      hide ContactsShown;
      r := AddContactInternal(who, env.sender, Now(env));
      if r.Ok? {
        ReplayOne(old(log), ContactAdded(who, env.sender, Now(env)));
        EventKeepsAccounts(before, ContactAdded(who, env.sender, Now(env)));
      }
    }

    method RemoveContactInternal(who: Address, operator: Address, at: nat) returns (r: Result<()>)
      requires ContactsAgree()
      modifies this`contacts, this`isContact, this`contactPosPlusOne, this`pendingRequestIdOf, this`log
      ensures ContactsAgree()
      ensures r == if Read(old(isContact), who, false) then Ok(()) else Revert(ContactNotFound)
      ensures r.Revert? ==> unchanged(this)
      ensures r.Ok? ==> isContact == old(isContact)[who := false]
                        && Removed(old(contacts), contacts, who)
                        && pendingRequestIdOf == (if Read(old(pendingRequestIdOf), who, 0) != 0
                                                  then old(pendingRequestIdOf)[who := 0] else old(pendingRequestIdOf))
                        && log == old(log) + [ContactRemoved(who, operator, at)]
    {
      hide Enumerates, FlagsAgree, Removed;
      FlagsAgreeAt(isContact, contactPosPlusOne, who);
      var posPlusOne := Read(contactPosPlusOne, who, 0);
      if posPlusOne == 0 { return Revert(ContactNotFound); }
      RemovalSteps(contacts, contactPosPlusOne, who);
      var idx := posPlusOne - 1;
      var last := |contacts| - 1;
      var moved := contacts[last];
      FlagsAgreeWithout(isContact, contactPosPlusOne, who, moved, idx + 1);
      if idx != last {
        contacts := contacts[idx := moved];
        contactPosPlusOne := contactPosPlusOne[moved := idx + 1];
      }
      contacts := contacts[..|contacts| - 1];
      contactPosPlusOne := contactPosPlusOne - {who};
      isContact := isContact[who := false];
      if Read(pendingRequestIdOf, who, 0) != 0 {
        pendingRequestIdOf := pendingRequestIdOf[who := 0];
      }
      log := log + [ContactRemoved(who, operator, at)];
      return Ok(());
    }

    method RemoveContact(env: Env, who: Address) returns (r: Result<()>)
      requires Valid() && env.sender != 0
      modifies this`contacts, this`isContact, this`contactPosPlusOne, this`pendingRequestIdOf, this`log
      ensures Valid() && Transacted(old(log), log, env, RegistryLog.RemoveContact(who), r)
      ensures r == if env.sender != owner then Revert(NotOwner)
                   else if !Read(old(isContact), who, false) then Revert(ContactNotFound) else Ok(())
      ensures r.Ok? ==>
                && isContact == old(isContact)[who := false] && Read(pendingRequestIdOf, who, 0) == 0
                && (forall a | a != who :: Read(pendingRequestIdOf, a, 0) == Read(old(pendingRequestIdOf), a, 0))
                && log == old(log) + [ContactRemoved(who, env.sender, Now(env))]
      ensures r.Revert? ==> unchanged(this)
      ensures r.Ok? ==> Removed(old(contacts), contacts, who)
    {
      hide Accounts, Replay, Enumerates, FlagsAgree, Removed, BootnodesShown, RequestsShown, ReviewersShown;
      if env.sender != owner { return Revert(NotOwner); }
      ghost var before := Replay(log);
      ContactShown(isContact, before.contacts, who, false);
      PendingRecorded(pendingRequestIdOf, before.pending, who, 0);
      assert Read(isContact, who, false) <==> who in before.contacts;
      hide ContactsShown, PendingShown;
      r := RemoveContactInternal(who, env.sender, Now(env));
      if r.Ok? {
        ReplayOne(old(log), ContactRemoved(who, env.sender, Now(env)));
        EventKeepsAccounts(before, ContactRemoved(who, env.sender, Now(env)));
      }
    }

    method SubmitContactRequest(env: Env, note: Bytes) returns (r: Result<nat>)
      requires Valid() && env.sender != 0
      modifies this`nextRequestId, this`requests, this`pendingRequestIdOf, this`log
      ensures Valid()
      ensures Transacted(old(log), log, env, RegistryLog.SubmitContactRequest(note),
                         if r.Ok? then Ok(()) else Revert(r.error))
      ensures if r.Revert? then unchanged(this) else r.value == old(nextRequestId)
      ensures r == if |note| > 256 then Revert(NoteTooLong)
                   else if Read(isContact, env.sender, false) then Revert(ContactAlreadyExists)
                   else if Read(old(pendingRequestIdOf), env.sender, 0) != 0 then Revert(AlreadyPending)
                   else if old(nextRequestId) == MAX_UINT256 then Revert(Overflow) else Ok(old(nextRequestId))
      ensures r.Ok? ==>
                && nextRequestId == r.value + 1
                && requests == old(requests)[r.value := Request(r.value, env.sender, note, Pending, Now(env), 0, 0)]
                && pendingRequestIdOf == old(pendingRequestIdOf)[env.sender := r.value]
                && log == old(log) + [RequestSubmitted(r.value, env.sender, note, Now(env))]
    {
      hide Accounts, Replay, Enumerates, FlagsAgree, Removed, BootnodesShown, ContactsShown, RequestsShown,
           PendingShown, ReviewersShown;
      ghost var before := Replay(log);
      RecordsHere(before, pendingRequestIdOf, requests, env.sender, 0);
      ContactShown(isContact, before.contacts, env.sender, true);
      NextNumber(before);
      if |note| > MAX_NOTE_LENGTH { return Revert(NoteTooLong); }
      if Read(isContact, env.sender, false) { return Revert(ContactAlreadyExists); }
      if Read(pendingRequestIdOf, env.sender, 0) != 0 { return Revert(AlreadyPending); }
      var requestId := nextRequestId;
      if requestId == MAX_UINT256 { return Revert(Overflow); }
      var request := Request(requestId, env.sender, note, Pending, Now(env), 0, 0);
      RequestShown(requests, before.requests, request);
      PendingRecorded(pendingRequestIdOf, before.pending, env.sender, requestId);
      nextRequestId := requestId + 1;
      requests := requests[requestId := request];
      pendingRequestIdOf := pendingRequestIdOf[env.sender := requestId];
      assert RequestsShown(requests, before.requests[requestId := request]);
      assert PendingShown(pendingRequestIdOf, before.pending[env.sender := requestId]);
      Emit(RequestSubmitted(requestId, env.sender, note, Now(env)));
      return Ok(requestId);
    }

    /** Records how a request ended, and clears the applicant's pending id if it is this request. */
    method SettleRequest(requestId: nat, status: Status, at: nat, reviewer: Address, ghost v: View)
      requires Accounts(v) && requestId in v.requests
      requires RequestsShown(requests, v.requests) && PendingShown(pendingRequestIdOf, v.pending)
      modifies this`requests, this`pendingRequestIdOf
      ensures RequestsShown(requests, Settle(v, requestId, status, reviewer, at).requests)
      ensures PendingShown(pendingRequestIdOf, Settle(v, requestId, status, reviewer, at).pending)
      ensures Ended(old(requests), requests, requestId, status, at, reviewer)
      ensures Cleared(old(pendingRequestIdOf), pendingRequestIdOf,
                      Read(old(requests), requestId, NO_REQUEST).applicant, requestId)
    {
      hide Accounts, RequestsShown, PendingShown, Ended;
      RequestEnds(requests, requestId, status, at, reviewer);
      var req := Read(requests, requestId, NO_REQUEST);
      RecordsHere(v, pendingRequestIdOf, requests, req.applicant, requestId);
      var settled := req.(status := status, reviewedAt := at, reviewer := reviewer);
      RequestShown(requests, v.requests, settled);
      PendingRecorded(pendingRequestIdOf, v.pending, req.applicant, 0);
      requests := requests[requestId := settled];
      if Read(pendingRequestIdOf, req.applicant, 0) == requestId {
        pendingRequestIdOf := pendingRequestIdOf[req.applicant := 0];
      }
    }

    /** The guards of both reviews. */
    method CheckReview(env: Env, requestId: nat) returns (r: Result<()>)
      requires Valid()
      ensures r == ReviewError(Replay(log), env, requestId)
      ensures r == if env.sender != owner then Revert(NotOwner)
                   else if Read(requests, requestId, NO_REQUEST).id == 0 then Revert(RequestNotFound)
                   else if Read(requests, requestId, NO_REQUEST).status != Pending then Revert(InvalidRequestStatus)
                   else if Read(reviewedBy, (requestId, env.sender), false) then Revert(AlreadyReviewed) else Ok(())
      ensures r.Ok? ==> requestId in Replay(log).requests
    {
      hide Accounts, Replay, Enumerates, FlagsAgree, BootnodesShown, ContactsShown, RequestsShown, PendingShown,
           ReviewersShown;
      ghost var before := Replay(log);
      var req := Read(requests, requestId, NO_REQUEST);
      RecordsHere(before, pendingRequestIdOf, requests, req.applicant, requestId);
      ReviewShown(reviewedBy, before.reviewedBy, (requestId, env.sender));
      if env.sender != owner { return Revert(NotOwner); }
      if req.id == 0 { return Revert(RequestNotFound); }
      if req.status != Pending { return Revert(InvalidRequestStatus); }
      if Read(reviewedBy, (requestId, env.sender), false) { return Revert(AlreadyReviewed); }
      return Ok(());
    }

    method ApproveRequest(env: Env, requestId: nat) returns (r: Result<()>)
      requires Valid() && env.sender != 0
      modifies this`contacts, this`isContact, this`contactPosPlusOne,
               this`requests, this`pendingRequestIdOf, this`reviewedBy, this`log
      ensures Valid() && Transacted(old(log), log, env, RegistryLog.ApproveRequest(requestId), r)
      ensures r.Revert? ==> unchanged(this)
      ensures r.Ok? ==> Ended(old(requests), requests, requestId, Approved, Now(env), env.sender)
      ensures r.Ok? ==>
                var applicant := Read(old(requests), requestId, NO_REQUEST).applicant;
                var known := Read(old(isContact), applicant, false);
                && Joined(old(contacts), old(isContact), contacts, isContact, applicant)
                && log == old(log) + (if known then [] else [ContactAdded(applicant, env.sender, Now(env))])
                          + [RequestApproved(requestId, env.sender, applicant, Now(env))]
      ensures r.Ok? ==> Cleared(old(pendingRequestIdOf), pendingRequestIdOf,
                                Read(old(requests), requestId, NO_REQUEST).applicant, requestId)
    {
      hide Ended, Cleared, Joined;
      hide Apply, Fits, Admitted, AdmissionEvents, ReviewError;
      hide Accounts, Replay, Enumerates, FlagsAgree, BootnodesShown, ContactsShown, RequestsShown, PendingShown,
           ReviewersShown;
      ghost var before := Replay(log);
      var req := Read(requests, requestId, NO_REQUEST);
      RecordsHere(before, pendingRequestIdOf, requests, req.applicant, requestId);
      ReviewShown(reviewedBy, before.reviewedBy, (requestId, env.sender));
      r := CheckReview(env, requestId);
      if r.Revert? { return; }
      reviewedBy := reviewedBy[(requestId, env.sender) := true];
      SettleRequest(requestId, Approved, Now(env), env.sender, before);
      ApplicantIsSomeone(before, requestId);
      ApproveContact(env, req.applicant, before);
      ApprovalTold(before, env, requestId);
      Emit(RequestApproved(requestId, env.sender, req.applicant, Now(env)));
      return Ok(());
    }

    /** Adds the applicant to the contacts unless it is one already. */
    method ApproveContact(env: Env, applicant: Address, ghost v: View)
      requires ContactsAgree() && ContactsShown(isContact, v.contacts) && Replay(log) == v
      requires Accounts(v) && applicant != 0
      modifies this`contacts, this`isContact, this`contactPosPlusOne, this`log
      ensures ContactsAgree() && ContactsShown(isContact, Admitted(v, applicant).contacts)
      ensures log == old(log) + AdmissionEvents(v, env, applicant)
      ensures var known := Read(old(isContact), applicant, false);
              && Joined(old(contacts), old(isContact), contacts, isContact, applicant)
              && log == old(log) + (if known then [] else [ContactAdded(applicant, env.sender, Now(env))])
      ensures Replay(log) == Admitted(v, applicant) && Accounts(Replay(log))
    {
      hide Accounts, Replay, Enumerates, FlagsAgree, ContactsShown;
      ContactShown(isContact, v.contacts, applicant, true);
      if !Read(isContact, applicant, false) {
        var added := AddContactInternal(applicant, env.sender, Now(env));
        ReplayOne(old(log), ContactAdded(applicant, env.sender, Now(env)));
        EventKeepsAccounts(v, ContactAdded(applicant, env.sender, Now(env)));
      } else {
        assert v.contacts + {applicant} == v.contacts;
      }
    }

    method RejectRequest(env: Env, requestId: nat) returns (r: Result<()>)
      requires Valid() && env.sender != 0
      modifies this`requests, this`pendingRequestIdOf, this`reviewedBy, this`log
      ensures Valid() && Transacted(old(log), log, env, RegistryLog.RejectRequest(requestId), r)
      ensures r.Revert? ==> unchanged(this)
      ensures r.Ok? ==> Ended(old(requests), requests, requestId, Rejected, Now(env), env.sender)
      ensures r.Ok? ==>
                var applicant := Read(old(requests), requestId, NO_REQUEST).applicant;
                log == old(log) + [RequestRejected(requestId, env.sender, applicant, Now(env))]
      ensures r.Ok? ==> Cleared(old(pendingRequestIdOf), pendingRequestIdOf,
                                Read(old(requests), requestId, NO_REQUEST).applicant, requestId)
    {
      hide Ended, Cleared, Joined;
      hide Accounts, Replay, Enumerates, FlagsAgree, BootnodesShown, ContactsShown, RequestsShown, PendingShown,
           ReviewersShown;
      ghost var before := Replay(log);
      var req := Read(requests, requestId, NO_REQUEST);
      RecordsHere(before, pendingRequestIdOf, requests, req.applicant, requestId);
      ReviewShown(reviewedBy, before.reviewedBy, (requestId, env.sender));
      r := CheckReview(env, requestId);
      if r.Revert? { return; }
      reviewedBy := reviewedBy[(requestId, env.sender) := true];
      SettleRequest(requestId, Rejected, Now(env), env.sender, before);
      Emit(RequestRejected(requestId, env.sender, req.applicant, Now(env)));
      return Ok(());
    }

    method CancelMyPendingRequest(env: Env, requestId: nat) returns (r: Result<()>)
      requires Valid() && env.sender != 0
      modifies this`requests, this`pendingRequestIdOf, this`log
      ensures Valid() && Transacted(old(log), log, env, RegistryLog.CancelMyPendingRequest(requestId), r)
      ensures r.Revert? ==> unchanged(this)
      ensures r.Ok? <==>
                var was := Read(old(requests), requestId, NO_REQUEST);
                was.id != 0 && was.applicant == env.sender && was.status == Pending
      ensures r.Ok? ==> Ended(old(requests), requests, requestId, Cancelled, Now(env), 0)
      ensures r.Ok? ==> log == old(log) + [RequestCancelled(requestId, env.sender, Now(env))]
      ensures r.Ok? ==> Cleared(old(pendingRequestIdOf), pendingRequestIdOf,
                                Read(old(requests), requestId, NO_REQUEST).applicant, requestId)
    {
      hide Ended, Cleared, Joined;
      hide Accounts, Replay, Enumerates, FlagsAgree, BootnodesShown, ContactsShown, RequestsShown, PendingShown,
           ReviewersShown;
      ghost var before := Replay(log);
      var req := Read(requests, requestId, NO_REQUEST);
      RecordsHere(before, pendingRequestIdOf, requests, req.applicant, requestId);
      if req.id == 0 { return Revert(RequestNotFound); }
      if req.applicant != env.sender { return Revert(NotApplicant); }
      if req.status != Pending { return Revert(InvalidRequestStatus); }
      SettleRequest(requestId, Cancelled, Now(env), 0, before);
      Emit(RequestCancelled(requestId, env.sender, Now(env)));
      return Ok(());
    }

    // Getters

    method GetBootnode(id: Bytes32) returns (r: Result<Bootnode>)
      requires Valid()
      ensures var shown := Replay(log).bootnodes;
              r == if id in shown then Ok(shown[id]) else Revert(BootnodeNotFound)
    {
      hide Accounts, Replay, Enumerates, FlagsAgree, BootnodesShown, ContactsShown, RequestsShown, PendingShown,
           ReviewersShown;
      NodeShown(bootnodePosPlusOne, bootnodes, Replay(log).bootnodes, id);
      if Read(bootnodePosPlusOne, id, 0) == 0 { return Revert(BootnodeNotFound); }
      return Ok(Read(bootnodes, id, NO_BOOTNODE));
    }

    method GetRequest(requestId: nat) returns (r: Result<Request>)
      requires Valid()
      ensures var shown := Replay(log).requests;
              r == if requestId in shown then Ok(shown[requestId]) else Revert(RequestNotFound)
    {
      hide Accounts, Replay, Enumerates, FlagsAgree, BootnodesShown, ContactsShown, RequestsShown, PendingShown,
           ReviewersShown;
      var req := Read(requests, requestId, NO_REQUEST);
      RecordsHere(Replay(log), pendingRequestIdOf, requests, req.applicant, requestId);
      if req.id == 0 { return Revert(RequestNotFound); }
      return Ok(req);
    }

    /** The bootnodes in the order of the list. */
    ghost function BootnodeList(): seq<Bootnode>
      reads this
    {
      seq(|bootnodeIds|, i requires 0 <= i < |bootnodeIds| reads this => Read(bootnodes, bootnodeIds[i], NO_BOOTNODE))
    }

    /** The requests in the order of their numbers. */
    ghost function RequestList(): seq<Request>
      requires nextRequestId > 0
      reads this
    {
      seq(nextRequestId - 1, i requires 0 <= i reads this => Read(requests, i + 1, NO_REQUEST))
    }

    method ListBootnodes(offset: nat, limit: nat) returns (r: Result<array<Bootnode>>)
      ensures Page(BootnodeList(), offset, limit) == if r.Ok? then Ok(r.value[..]) else Revert(r.error)
    {
      if offset >= |bootnodeIds| || limit == 0 {
        var none := new Bootnode[0];
        assert none[..] == [];
        return Ok(none);
      }
      if offset + limit > MAX_UINT256 { return Revert(Overflow); }
      var end := offset + limit;
      if end > |bootnodeIds| { end := |bootnodeIds|; }
      var out := new Bootnode[end - offset](_ => NO_BOOTNODE);
      for i := offset to end
        invariant forall k | 0 <= k < i - offset :: out[k] == BootnodeList()[offset + k]
      {
        out[i - offset] := Read(bootnodes, bootnodeIds[i], NO_BOOTNODE);
      }
      assert out[..] == BootnodeList()[offset..end];
      return Ok(out);
    }

    method ListContacts(offset: nat, limit: nat) returns (r: Result<array<Address>>)
      ensures Page(contacts, offset, limit) == if r.Ok? then Ok(r.value[..]) else Revert(r.error)
    {
      if offset >= |contacts| || limit == 0 {
        var none := new Address[0];
        assert none[..] == [];
        return Ok(none);
      }
      if offset + limit > MAX_UINT256 { return Revert(Overflow); }
      var end := offset + limit;
      if end > |contacts| { end := |contacts|; }
      var out := new Address[end - offset](_ => 0);
      for i := offset to end
        invariant forall k | 0 <= k < i - offset :: out[k] == contacts[offset + k]
      {
        out[i - offset] := contacts[i];
      }
      assert out[..] == contacts[offset..end];
      return Ok(out);
    }

    method ListRequests(offset: nat, limit: nat) returns (r: Result<array<Request>>)
      requires nextRequestId > 0
      ensures Page(RequestList(), offset, limit) == if r.Ok? then Ok(r.value[..]) else Revert(r.error)
    {
      var total := nextRequestId - 1;
      if offset >= total || limit == 0 {
        var none := new Request[0];
        assert none[..] == [];
        return Ok(none);
      }
      if offset + limit > MAX_UINT256 { return Revert(Overflow); }
      var end := offset + limit;
      if end > total { end := total; }
      var out := new Request[end - offset](_ => NO_REQUEST);
      for i := offset to end
        invariant forall k | 0 <= k < i - offset :: out[k] == RequestList()[offset + k]
      {
        out[i - offset] := Read(requests, i + 1, NO_REQUEST);
      }
      assert out[..] == RequestList()[offset..end];
      return Ok(out);
    }

    /** The list of requests is complete, and in the order of their numbers. */
    lemma RequestsAreTold(r: nat)
      requires Valid()
      ensures r in Replay(log).requests <==> 1 <= r <= |RequestList()|
      ensures r in Replay(log).requests ==> RequestList()[r - 1] == Replay(log).requests[r]
    {
      RecordsHere(Replay(log), pendingRequestIdOf, requests, 0, r);
      NextNumber(Replay(log));
    }

    /** The lists are what the events tell: the contacts once each, and every bootnode with its latest entry. */
    lemma ListsAreTold()
      requires Valid()
      ensures var v := Replay(log);
              && multiset(contacts) == multiset(v.contacts)
              && multiset(bootnodeIds) == multiset(v.bootnodes.Keys)
              && (forall i | 0 <= i < |bootnodeIds| :: BootnodeList()[i] == v.bootnodes[bootnodeIds[i]])
    {
      var v := Replay(log);
      hide Replay;
      ListIsSet(contacts, contactPosPlusOne, v.contacts);
      ListIsSet(bootnodeIds, bootnodePosPlusOne, v.bootnodes.Keys);
    }

    /** A transaction: the call it carries, from its sender. */
    method Transact(env: Env, call: Call) returns (r: Result<()>)
      requires Valid() && env.sender != 0
      modifies this
      ensures Valid() && Transacted(old(log), log, env, call, r)
    {
      hide *;
      match call
      case TransferOwnership(newOwner) => r := TransferOwnership(env, newOwner);
      case UpsertBootnode(id, multiaddr) => r := UpsertBootnode(env, id, multiaddr);
      case RemoveBootnode(id) => r := RemoveBootnode(env, id);
      case AddContact(who) => r := AddContact(env, who);
      case RemoveContact(who) => r := RemoveContact(env, who);
      case ApproveRequest(requestId) => r := ApproveRequest(env, requestId);
      case RejectRequest(requestId) => r := RejectRequest(env, requestId);
      case CancelMyPendingRequest(requestId) => r := CancelMyPendingRequest(env, requestId);
      case SubmitContactRequest(note) =>
        var submitted := SubmitContactRequest(env, note);
        r := if submitted.Ok? then Ok(()) else Revert(submitted.error);
    }
  }

  /** A registry after a run of transactions shows what the events of the run tell. */
  method Deploy(creator: Env, calls: seq<(Env, Call)>) returns (registry: AssemblerRegistry)
    requires RealSenders(creator, calls)
    ensures fresh(registry) && registry.Valid() && registry.log == Run(creator, calls)
  {
    registry := new AssemblerRegistry(creator);
    assert calls[..0] == [];
    for k := 0 to |calls|
      invariant registry.Valid() && registry.log == Run(creator, calls[..k])
    {
      assert calls[..k + 1][..k] == calls[..k];
      var r := registry.Transact(calls[k].0, calls[k].1);
    }
    assert calls[..|calls|] == calls;
  }
}
