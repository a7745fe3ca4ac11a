/** How often a player can be booked (internal/tetrisroom/manager.go): the bound of RoomProtocol is sharp, some run
    attains it for every player. */
module RoomBookings {
  import opened Strings
  import opened RoomManager
  import opened RoomProtocol

  /** The ids up to this one; it is the k-th in order when there are k of them. */
  function UpTo(seats: seq<string>, id: string): set<string> {
    set seat | seat in seats && (seat == id || Less(seat, id)) :: seat
  }

  predicate Largest(seats: seq<string>, id: string) {
    forall other | other in seats :: !Less(id, other)
  }

  /** All the ids up to this one can open a room with it, except itself if it is the largest. */
  lemma OpenersUpTo(seats: seq<string>, id: string)
    requires id in seats
    ensures Openers(seats, id) == UpTo(seats, id) - if Largest(seats, id) then {id} else {}
    ensures |Openers(seats, id)| == |UpTo(seats, id)| - if Largest(seats, id) then 1 else 0
  {
    LessIsIrreflexive(id);
    forall seat: string
      ensures seat in Openers(seats, id) <==> seat in UpTo(seats, id) - if Largest(seats, id) then {id} else {}
    {
      if seat != id && Less(seat, id) { assert id in seats; }
    }
    assert id in UpTo(seats, id);
  }

  /** Every node before n whose id is smaller hears that k's player waits, and then gets its own player ready. */
  function AllBook(seats: seq<string>, k: nat, n: nat): seq<Step>
    requires k < |seats| && n <= |seats|
  {
    if n == 0 then WaitSteps(seats, k, "", "")
    else AllBook(seats, k, n - 1) + if Less(seats[n - 1], seats[k]) then BookSteps(seats, n - 1, k, "", "") else []
  }

  ghost predicate Booked(seats: seq<string>, s: System, k: nat, n: nat)
    requires k < |seats| == |s|
  {
    && s[k] == ReadyNode(seats[k], map[], "", "")
    && forall i | 0 <= i < |s| && i != k ::
         if i < n && Less(seats[i], seats[k]) then Announces(s[i], seats[k]) else s[i] == EMPTY_NODE
  }

  lemma {:induction false} AllBookBooks(seats: seq<string>, k: nat, n: nat)
    requires Distinct(seats) && k < |seats| && n <= |seats|
    ensures Booked(seats, Run(seats, AllBook(seats, k, n)), k, n)
  {
    hide Run, Less, Announces, ReadyNode, WaitSteps, BookSteps;
    if n == 0 {
      StartsEmpty(seats);
      assert [] + WaitSteps(seats, k, "", "") == WaitSteps(seats, k, "", "");
      Waits(seats, [], k, "", "");
    } else {
      AllBookBooks(seats, k, n - 1);
      var before := AllBook(seats, k, n - 1);
      if Less(seats[n - 1], seats[k]) {
        LessIsIrreflexive(seats[k]);
        ReadySays(seats[k]);
        BooksWaiting(seats, before, n - 1, k, "", "");
      } else {
        assert before + [] == before;
      }
    }
  }

  lemma ReadySays(id: string)
    ensures ReadyNode(id, map[], "", "").outbox == [PlayerReady(Waiting(id, "", ""))]
  {
  }

  /** Then k's own node hears of a player with a larger id. */
  function BookOwn(seats: seq<string>, k: nat, m: nat): seq<Step>
    requires m < |seats|
  {
    WaitSteps(seats, m, "", "") + [Deliver(k, m, 0)]
  }

  lemma HearsOfLarger(id: string, peer: string)
    requires Less(id, peer)
    ensures WellKeyed(ReadyNode(id, map[], "", ""))
    ensures Announces(Heard(ReadyNode(id, map[], "", ""), PlayerReady(Waiting(peer, "", ""))), id)
  {
    hide Matched, Candidates, Less, WellKeyed, TryMatch, PlayerHeard, ReadyNode;
    LessIsAsymmetric(id, peer);
    ReadyHears(id, peer);
    CandidatesOfTwo(id, peer, "", "");
    ReadyHas(id, map[peer := Waiting(peer, "", "")]);
    var n := ReadyNode(id, map[peer := Waiting(peer, "", "")], "", "");
    MatchOfTwo(n, id, peer, "", "");
    MatchAnnounces(n, Matched(n, "", "").value, "", "");
    MatchedRoom(n, "", "");
    HostOrGuest(n, id, peer);
  }

  lemma ReadyHears(id: string, peer: string)
    requires id != peer
    ensures WellKeyed(ReadyNode(id, map[], "", ""))
    ensures PlayerHeard(ReadyNode(id, map[], "", ""), Waiting(peer, "", ""))
            == ReadyNode(id, map[peer := Waiting(peer, "", "")], "", "")
  {
  }

  lemma ReadyHas(id: string, remote: map<string, Player>)
    ensures |ReadyNode(id, remote, "", "").outbox| == 1
  {
  }

  /** With two candidates both are members. */
  lemma HostOrGuest(n: Node, id: string, peer: string)
    requires WellKeyed(n) && Candidates(n, "", "").Keys == {id, peer} && Matched(n, "", "").Some?
    ensures id in Matched(n, "", "").value.playerIDs
  {
    hide Candidates, Matched;
    MatchedRoom(n, "", "");
  }

  lemma OwnIsBooked(seats: seq<string>, steps: seq<Step>, k: nat, m: nat)
    requires k < |seats| && m < |seats| && k != m && Less(seats[k], seats[m])
    requires Run(seats, steps)[k] == ReadyNode(seats[k], map[], "", "") && Run(seats, steps)[m] == EMPTY_NODE
    ensures var s, after := Run(seats, steps), Run(seats, steps + BookOwn(seats, k, m));
            && Announces(after[k], seats[k])
            && forall i | 0 <= i < |seats| && i != k && i != m :: after[i] == s[i]
  {
    hide Run, Heard, Less, Announces, ReadyNode, WaitSteps;
    Waits(seats, steps, m, "", "");
    ReadySays(seats[m]);
    HearsOfLarger(seats[k], seats[m]);
    var waited := steps + WaitSteps(seats, m, "", "");
    AfterDelivery(seats, waited, k, m, 0);
    assert steps + BookOwn(seats, k, m) == waited + [Deliver(k, m, 0)];
  }

  lemma AnnouncedIsBooked(s: System, i: nat, id: string)
    requires i < |s| && Announces(s[i], id)
    ensures (i, BookedRoom(s, i, id)) in Bookings(s, id)
  {
    assert (i, s[i].outbox[1].room) in Opened(s);
  }

  /** Nodes that announce a room with the player, under different ids, make as many bookings. */
  lemma {:induction false} BookingsCount(seats: seq<string>, s: System, id: string, ids: set<string>)
    requires |s| == |seats| && Distinct(seats)
    requires forall seat | seat in ids :: exists i: nat :: i < |seats| && seats[i] == seat && Announces(s[i], id)
    ensures |ids| <= |BookingsAt(seats, s, id, ids)| <= |Bookings(s, id)|
  {
    hide Bookings, Announces;
    if ids != {} {
      var seat :| seat in ids;
      var i: nat :| i < |seats| && seats[i] == seat && Announces(s[i], id);
      BookingsCount(seats, s, id, ids - {seat});
      AnnouncedIsBooked(s, i, id);
      var fewer := BookingsAt(seats, s, id, ids - {seat});
      var entry := (i, BookedRoom(s, i, id));
      assert entry !in fewer && fewer + {entry} <= BookingsAt(seats, s, id, ids);
      Subset(fewer + {entry}, BookingsAt(seats, s, id, ids));
    }
    Subset(BookingsAt(seats, s, id, ids), Bookings(s, id));
  }

  function BookedRoom(s: System, i: nat, id: string): Room
    requires i < |s| && Announces(s[i], id)
  {
    s[i].outbox[1].room
  }

  function BookingsAt(seats: seq<string>, s: System, id: string, ids: set<string>): set<(nat, Room)> {
    set entry | entry in Bookings(s, id) && entry.0 < |seats| && seats[entry.0] in ids :: entry
  }

  lemma Subset(a: set<(nat, Room)>, b: set<(nat, Room)>)
    requires a <= b
    ensures |a| <= |b|
  {
    assert b == a + (b - a);
  }

  /** For every player some run books it into as many rooms as the bound allows. */
  lemma BoundIsAttained(seats: seq<string>, k: nat) returns (steps: seq<Step>)
    requires Distinct(seats) && k < |seats|
    ensures |Bookings(Run(seats, steps), seats[k])| == |Openers(seats, seats[k])|
  {
    var id := seats[k];
    steps := AllBook(seats, k, |seats|);
    AllBookBooks(seats, k, |seats|);
    LessIsIrreflexive(id);
    if m: nat :| m < |seats| && Less(id, seats[m]) {
      LessIsAsymmetric(id, seats[m]);
      OwnIsBooked(seats, steps, k, m);
      steps := steps + BookOwn(seats, k, m);
    }
    hide Run, Announces, AllBook, BookOwn;
    var s := Run(seats, steps);
    forall seat | seat in Openers(seats, id)
      ensures exists i: nat :: i < |seats| && seats[i] == seat && Announces(s[i], id)
    {
      var i: nat :| i < |seats| && seats[i] == seat;
      var other :| other in seats && Less(seat, other);
    }
    BookingsCount(seats, s, id, Openers(seats, id));
    BookingBound(seats, steps, id);
  }
}
