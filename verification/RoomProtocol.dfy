/** Room managers on several nodes (internal/tetrisroom/manager.go) over a network that may lose, delay,
    reorder and repeat events: any published event may reach any node, its sender included, at any later
    time, any number of times or never. */
module RoomProtocol {
  import opened Strings
  import opened RoomManager

  type System = seq<Node>

  /** Post is the second half of SubmitInput, which runs after the lock was released: its guards held at some
      earlier time or, which allows more than the source does, never. */
  datatype Call =
    | Register(id: string, appID: string, version: string)
    | Upsert(id: string, appID: string, version: string)
    | Ready(id: string, ping: int)
    | Toggle(roomID: string, id: string, toMode: string, agentID: string)
    | Post(roomID: string, input: Input, published: bool)

  /** A node serves a call, or hears the k-th event another node has published. */
  datatype Step =
    | Local(node: nat, call: Call)
    | Deliver(to: nat, from: nat, k: nat)

  ghost function Served(n: Node, call: Call): (after: Node)
    requires WellKeyed(n)
    ensures WellKeyed(after)
  {
    match call
    case Register(id, appID, version) => Registered(n, id, appID, version).0
    case Upsert(id, appID, version) => Upserted(n, id, appID, version).0
    case Ready(id, ping) => SetReady(n, id, ping).0
    case Toggle(roomID, id, toMode, agentID) => ControlToggled(n, roomID, id, toMode, agentID).0
    case Post(roomID, input, published) => InputPosted(n, roomID, input, published)
  }

  /** Every node's players register under the node's own id: seats[i] is the id used on node i. */
  predicate Distinct(seats: seq<string>) {
    forall i, j | 0 <= i < j < |seats| :: seats[i] != seats[j]
  }

  /** The step can happen: its node exists, its event has been published, and a first
      registration on a node uses that node's id. */
  predicate Enabled(seats: seq<string>, s: System, step: Step)
    requires |s| == |seats|
  {
    match step
    case Local(i, call) =>
      && i < |s|
      && (call.Register? || call.Upsert? ==> call.id == seats[i] || s[i].players != map[])
    case Deliver(to, from, k) =>
      to < |s| && from < |s| && k < |s[from].outbox|
  }

  ghost predicate AllKeyed(s: System) {
    forall i | 0 <= i < |s| :: WellKeyed(s[i])
  }

  ghost function Next(seats: seq<string>, s: System, step: Step): (after: System)
    requires |s| == |seats| && AllKeyed(s)
    ensures |after| == |seats| && AllKeyed(after)
  {
    if !Enabled(seats, s, step) then s
    else
      match step
      case Local(i, call) => s[i := Served(s[i], call)]
      case Deliver(to, from, k) => s[to := Heard(s[to], s[from].outbox[k])]
  }

  /** The system after a run; steps that cannot happen are passed over. */
  ghost function Run(seats: seq<string>, steps: seq<Step>): (s: System)
    ensures |s| == |seats| && AllKeyed(s)
  {
    if steps == [] then seq(|seats|, _ => EMPTY_NODE)
    else Next(seats, Run(seats, steps[..|steps| - 1]), steps[|steps| - 1])
  }

  // ---------------------------------------------------------------------------
  // What every run keeps
  // ---------------------------------------------------------------------------

  /** Rooms opened so far, with the node that opened them. */
  function Opened(s: System): set<(nat, Room)> {
    set i: nat, k: nat | i < |s| && k < |s[i].outbox| && s[i].outbox[k].RoomAssigned? :: (i, s[i].outbox[k].room)
  }

  function Rooms(s: System): set<Room> {
    set entry | entry in Opened(s) :: entry.1
  }

  /** The ids whose players are registered. */
  function Seats(s: System): set<string> {
    set i: nat, id | i < |s| && id in s[i].players :: id
  }

  /** A room opened on the node of the given seat: two registered members, the seat being the smaller one. */
  predicate WellMade(seat: string, registered: set<string>, room: Room) {
    && |room.playerIDs| == 2 && room.playerIDs[0] != room.playerIDs[1]
    && room.playerIDs[0] in registered && room.playerIDs[1] in registered
    && room.hostID == room.playerIDs[0]
    && seat == Smaller(room.playerIDs[0], room.playerIDs[1])
    && room.id == RoomName(1)
  }

  predicate ReadyPlayer(p: Player) {
    p.ready && p.roomID == ""
  }

  /** The events one node has published. */
  ghost predicate OutboxInv(seat: string, n: Node, registered: set<string>) {
    && (forall e | e in n.outbox && e.PlayerReady? :: e.player.id == seat && seat in n.players && ReadyPlayer(e.player))
    && (forall e | e in n.outbox && e.RoomAssigned? :: WellMade(seat, registered, e.room))
    && (n.seqNo == 0 ==> forall e | e in n.outbox :: !e.RoomAssigned?)
    && (forall j, k | 0 <= j < |n.outbox| && 0 <= k < |n.outbox| ::
          n.outbox[j].RoomAssigned? && n.outbox[k].RoomAssigned? ==> j == k)
  }

  /** One node, given the rooms and registered ids of the whole system. */
  ghost predicate NodeInv(seat: string, n: Node, registered: set<string>, rooms: set<Room>) {
    && WellKeyed(n)
    && n.players.Keys <= {seat}
    && (forall id | id in n.remote :: id != seat && id in registered && ReadyPlayer(n.remote[id]))
    && n.seqNo <= 1 && (n.seqNo == 1 ==> seat in n.players && n.players[seat].roomID != "")
    && (forall id | id in n.rooms :: n.rooms[id].id == id && n.rooms[id] in rooms)
    && (forall id | id in n.players && n.players[id].roomID != "" ::
          && n.players[id].roomID in n.rooms
          && exists room :: room in rooms && room.id == n.players[id].roomID && id in room.playerIDs)
  }

  ghost predicate Inv(seats: seq<string>, s: System) {
    && |s| == |seats|
    && forall i | 0 <= i < |s| ::
         NodeInv(seats[i], s[i], Seats(s), Rooms(s)) && OutboxInv(seats[i], s[i], Seats(s))
  }

  // ---------------------------------------------------------------------------
  // One node's step keeps its part
  // ---------------------------------------------------------------------------

  ghost predicate NodeOK(seat: string, n: Node, registered: set<string>, rooms: set<Room>) {
    NodeInv(seat, n, registered, rooms) && OutboxInv(seat, n, registered)
  }

  /** Nodes never forget a player or an event they have published. */
  predicate Grows(n: Node, after: Node) {
    n.players.Keys <= after.players.Keys && n.outbox <= after.outbox
  }

  function RoomsOf(n: Node): set<Room> {
    set k: nat | k < |n.outbox| && n.outbox[k].RoomAssigned? :: n.outbox[k].room
  }

  lemma KnowingMore(seat: string, n: Node, registered: set<string>, rooms: set<Room>,
                    registered': set<string>, rooms': set<Room>)
    requires NodeOK(seat, n, registered, rooms) && registered <= registered' && rooms <= rooms'
    ensures NodeOK(seat, n, registered', rooms')
  {
  }

  lemma Singleton(seat: string, n: Node, registered: set<string>, rooms: set<Room>)
    requires NodeOK(seat, n, registered, rooms)
    ensures Apart(n)
  {
  }

  /** Opening a room: the node's player is seated, the members leave the remote table, the room is announced. */
  ghost predicate Opens(seat: string, n: Node, after: Node, room: Room) {
    && seat in n.players && n.players[seat].roomID == ""
    && after.players == n.players[seat := Seated(n.players[seat], room.id)]
    && after.remote == n.remote - (set id | id in room.playerIDs)
    && after.rooms == n.rooms[room.id := room]
    && after.seqNo == n.seqNo + 1
    && after.outbox == n.outbox + [RoomAssigned(room)]
  }

  lemma MatchIsWellMade(seat: string, n: Node, registered: set<string>, rooms: set<Room>, appID: string,
          version: string)
    requires NodeOK(seat, n, registered, rooms) && n.players.Keys <= registered
    requires Matched(n, appID, version).Some?
    ensures var room := Matched(n, appID, version).value;
            && WellMade(seat, registered, room) && room.id != "" && seat in room.playerIDs
            && n.seqNo == 0 && seat in n.players && Eligible(n.players[seat], appID, version)
  {
    Singleton(seat, n, registered, rooms);
    MatchedRoom(n, appID, version);
    OwnerIsEligible(n, appID, version);
    hide Matched, OutboxInv, RoomName, IsLeast;
  }

  lemma MatchOpens(seat: string, n: Node, appID: string, version: string)
    requires WellKeyed(n) && Matched(n, appID, version).Some?
    requires seat in Matched(n, appID, version).value.playerIDs
    requires seat in n.players && Eligible(n.players[seat], appID, version)
    ensures Opens(seat, n, TryMatch(n, appID, version), Matched(n, appID, version).value)
  {
    hide Matched, Seated;
    assert forall id | id in n.players :: id == seat;
  }

  lemma OpeningKeepsTables(seat: string, n: Node, after: Node, registered: set<string>, rooms: set<Room>, room: Room)
    requires NodeInv(seat, n, registered, rooms) && room in rooms && WellMade(seat, registered, room) && room.id != ""
    requires Opens(seat, n, after, room) && n.seqNo == 0
    ensures NodeInv(seat, after, registered, rooms)
  {
    hide RoomName;
    assert seat in room.playerIDs;
  }

  lemma OpeningKeepsOutbox(seat: string, n: Node, after: Node, registered: set<string>, room: Room)
    requires OutboxInv(seat, n, registered) && WellMade(seat, registered, room)
    requires Opens(seat, n, after, room) && n.seqNo == 0
    ensures OutboxInv(seat, after, registered) && room in RoomsOf(after) && Grows(n, after)
  {
    hide WellMade;
    assert after.outbox[|n.outbox|] == RoomAssigned(room);
  }

  /** A match opens at most one room in a node's lifetime: its player is seated from then on. */
  lemma MatchKeeps(seat: string, n: Node, registered: set<string>, rooms: set<Room>, appID: string, version: string)
    requires NodeOK(seat, n, registered, rooms) && n.players.Keys <= registered
    ensures var after := TryMatch(n, appID, version);
            Grows(n, after) && NodeOK(seat, after, registered, rooms + RoomsOf(after))
  {
    var after := TryMatch(n, appID, version);
    hide NodeInv, OutboxInv, Opens, Matched, WellMade;
    if Matched(n, appID, version).Some? {
      var room := Matched(n, appID, version).value;
      MatchIsWellMade(seat, n, registered, rooms, appID, version);
      MatchOpens(seat, n, appID, version);
      OpeningKeepsOutbox(seat, n, after, registered, room);
      KnowingMore(seat, n, registered, rooms, registered, rooms + RoomsOf(after));
      OpeningKeepsTables(seat, n, after, registered, rooms + RoomsOf(after), room);
    } else {
      KnowingMore(seat, n, registered, rooms, registered, rooms + RoomsOf(after));
    }
  }

  /** An event that some node of the system has published. */
  ghost predicate EventOK(seat: string, n: Node, registered: set<string>, rooms: set<Room>, e: Event) {
    match e
    case PlayerReady(p) => p.id in registered && ReadyPlayer(p) && (p.id == seat ==> seat in n.players)
    case RoomAssigned(room) => room in rooms && room.id != ""
    case _ => true
  }

  lemma HearingPlayerKeeps(seat: string, n: Node, registered: set<string>, rooms: set<Room>, p: Player)
    requires NodeOK(seat, n, registered, rooms) && EventOK(seat, n, registered, rooms, PlayerReady(p))
    ensures var after := PlayerHeard(n, p);
            && NodeOK(seat, after, registered, rooms)
            && after.players.Keys == n.players.Keys && after.outbox == n.outbox
  {
    hide WellMade;
  }

  lemma HearingAssignmentKeeps(seat: string, n: Node, registered: set<string>, rooms: set<Room>, room: Room)
    requires NodeOK(seat, n, registered, rooms) && EventOK(seat, n, registered, rooms, RoomAssigned(room))
    ensures var after := AssignmentHeard(n, room);
            && NodeOK(seat, after, registered, rooms)
            && after.players.Keys == n.players.Keys && after.outbox == n.outbox
  {
    hide WellMade;
  }

  lemma HeardKeeps(seat: string, n: Node, registered: set<string>, rooms: set<Room>, e: Event)
    requires NodeOK(seat, n, registered, rooms) && EventOK(seat, n, registered, rooms, e)
    requires n.players.Keys <= registered && RoomsOf(n) <= rooms
    ensures WellKeyed(n)
    ensures var after := Heard(n, e);
            Grows(n, after) && NodeOK(seat, after, registered, rooms + RoomsOf(after))
  {
    var after := Heard(n, e);
    hide OutboxInv, WellMade;
    match e
    case PlayerReady(p) =>
      HearingPlayerKeeps(seat, n, registered, rooms, p);
      MatchKeeps(seat, PlayerHeard(n, p), registered, rooms, p.appID, p.version);
    case RoomAssigned(room) =>
      HearingAssignmentKeeps(seat, n, registered, rooms, room);
      KnowingMore(seat, after, registered, rooms, registered, rooms + RoomsOf(after));
    case ControlSwitched(_, _, _, _, _) =>
      KnowingMore(seat, after, registered, rooms, registered, rooms + RoomsOf(after));
    case RoomInput(_, _) =>
      assert OutboxInv(seat, after, registered) by { SameOutbox(seat, n, after, registered); }
      assert NodeOK(seat, after, registered, rooms);
      KnowingMore(seat, after, registered, rooms, registered, rooms + RoomsOf(after));
  }

  lemma SameOutbox(seat: string, n: Node, after: Node, registered: set<string>)
    requires OutboxInv(seat, n, registered) && after.outbox == n.outbox && after.seqNo == n.seqNo
    requires n.players.Keys <= after.players.Keys
    ensures OutboxInv(seat, after, registered)
  {
  }

  /** Publishing anything but a room announcement keeps the outbox sound. */
  lemma Publishing(seat: string, n: Node, after: Node, registered: set<string>, e: Event)
    requires OutboxInv(seat, n, registered) && after.outbox == n.outbox + [e] && after.seqNo == n.seqNo
    requires n.players.Keys <= after.players.Keys
    requires !e.RoomAssigned?
    requires e.PlayerReady? ==> e.player.id == seat && seat in after.players && ReadyPlayer(e.player)
    ensures OutboxInv(seat, after, registered)
  {
    hide WellMade;
  }

  lemma RegisteringKeeps(seat: string, n: Node, registered: set<string>, rooms: set<Room>, call: Call)
    requires NodeOK(seat, n, registered, rooms) && (call.Register? || call.Upsert?)
    requires call.id == seat || n.players != map[]
    ensures var after := Served(n, call);
            Grows(n, after) && NodeOK(seat, after, registered, rooms)
  {
    var after := Served(n, call);
    hide WellMade, OutboxInv;
    SameOutbox(seat, n, after, registered);
  }

  lemma ReadyKeeps(seat: string, n: Node, registered: set<string>, rooms: set<Room>, id: string, ping: int)
    requires NodeOK(seat, n, registered, rooms) && n.players.Keys <= registered
    requires ReadyError(n, id, ping) == None
    ensures var after := MarkedReady(n, id, ping);
            Grows(n, after) && NodeOK(seat, after, registered, rooms) && after.players.Keys == n.players.Keys
  {
    var after := MarkedReady(n, id, ping);
    hide WellMade, OutboxInv;
    assert id == seat;
    Publishing(seat, n, after, registered, after.outbox[|n.outbox|]);
  }

  /** Neither the seat nor anything the tables say about rooms changes. */
  ghost predicate SameSeating(n: Node, after: Node) {
    && after.players.Keys == n.players.Keys
    && (forall id | id in n.players ::
          after.players[id].id == n.players[id].id && after.players[id].roomID == n.players[id].roomID)
    && after.remote == n.remote && after.rooms == n.rooms && after.seqNo == n.seqNo
  }

  lemma SameSeatingKeeps(seat: string, n: Node, after: Node, registered: set<string>, rooms: set<Room>)
    requires NodeOK(seat, n, registered, rooms) && SameSeating(n, after)
    requires after.outbox == n.outbox
             || (|after.outbox| == |n.outbox| + 1 && after.outbox == n.outbox + [after.outbox[|n.outbox|]]
                 && !after.outbox[|n.outbox|].RoomAssigned? && !after.outbox[|n.outbox|].PlayerReady?)
    ensures Grows(n, after) && NodeOK(seat, after, registered, rooms)
  {
    hide WellMade, OutboxInv;
    if after.outbox == n.outbox {
      SameOutbox(seat, n, after, registered);
    } else {
      Publishing(seat, n, after, registered, after.outbox[|n.outbox|]);
    }
  }

  lemma ToggleSeating(n: Node, roomID: string, id: string, toMode: string, agentID: string)
    requires WellKeyed(n)
    ensures var after := ControlToggled(n, roomID, id, toMode, agentID).0;
            SameSeating(n, after)
            && (after.outbox == n.outbox
                || (|after.outbox| == |n.outbox| + 1 && after.outbox == n.outbox + [after.outbox[|n.outbox|]]
                    && after.outbox[|n.outbox|].ControlSwitched?))
  {
  }

  lemma PostSeating(n: Node, roomID: string, input: Input, published: bool)
    requires WellKeyed(n)
    ensures var after := InputPosted(n, roomID, input, published);
            SameSeating(n, after)
            && (after.outbox == n.outbox
                || (|after.outbox| == |n.outbox| + 1 && after.outbox == n.outbox + [after.outbox[|n.outbox|]]
                    && after.outbox[|n.outbox|].RoomInput?))
  {
  }

  lemma ControlKeeps(seat: string, n: Node, registered: set<string>, rooms: set<Room>, call: Call)
    requires NodeOK(seat, n, registered, rooms) && (call.Toggle? || call.Post?)
    ensures var after := Served(n, call);
            Grows(n, after) && NodeOK(seat, after, registered, rooms)
  {
    var after := Served(n, call);
    hide NodeInv, OutboxInv, SameSeating, InputPosted, ControlToggled, Grows;
    match call
    case Toggle(roomID, id, toMode, agentID) => ToggleSeating(n, roomID, id, toMode, agentID);
    case Post(roomID, input, published) => PostSeating(n, roomID, input, published);
    SameSeatingKeeps(seat, n, after, registered, rooms);
  }

  lemma ServedKeeps(seat: string, n: Node, registered: set<string>, rooms: set<Room>, call: Call)
    requires NodeOK(seat, n, registered, rooms) && n.players.Keys <= registered
    requires call.Register? || call.Upsert? ==> call.id == seat || n.players != map[]
    ensures WellKeyed(n)
    ensures var after := Served(n, call);
            Grows(n, after) && NodeOK(seat, after, registered + after.players.Keys, rooms + RoomsOf(after))
  {
    assert WellKeyed(n);
    var after := Served(n, call);
    hide NodeOK;
    if call.Ready? && ReadyError(n, call.id, call.ping) == None {
      ReadyKeeps(seat, n, registered, rooms, call.id, call.ping);
      var p := n.players[call.id];
      MatchKeeps(seat, MarkedReady(n, call.id, call.ping), registered, rooms, p.appID, p.version);
      KnowingMore(seat, after, registered, rooms + RoomsOf(after), registered + after.players.Keys,
          rooms + RoomsOf(after));
    } else {
      if call.Register? || call.Upsert? {
        RegisteringKeeps(seat, n, registered, rooms, call);
      } else if call.Toggle? || call.Post? {
        ControlKeeps(seat, n, registered, rooms, call);
      }
      KnowingMore(seat, after, registered, rooms, registered + after.players.Keys, rooms + RoomsOf(after));
    }
  }

  // ---------------------------------------------------------------------------
  // The whole system
  // ---------------------------------------------------------------------------

  lemma SystemGrows(s: System, i: nat, n: Node)
    requires i < |s| && Grows(s[i], n)
    ensures Seats(s) + n.players.Keys == Seats(s[i := n])
    ensures Rooms(s) + RoomsOf(n) == Rooms(s[i := n])
    ensures Opened(s) <= Opened(s[i := n])
  {
    var after := s[i := n];
    forall id | id in Seats(s) + n.players.Keys ensures id in Seats(after) {
      if id in n.players { assert id in after[i].players; }
      else {
        var j: nat :| j < |s| && id in s[j].players;
        assert id in after[j].players;
      }
    }
    forall room | room in Rooms(after) ensures room in Rooms(s) + RoomsOf(n) {
      var entry :| entry in Opened(after) && entry.1 == room;
      var k: nat :| k < |after[entry.0].outbox| && after[entry.0].outbox[k] == RoomAssigned(room);
      if entry.0 != i { assert entry in Opened(s); }
    }
    forall entry | entry in Opened(s) ensures entry in Opened(after) {
      var k: nat :| k < |s[entry.0].outbox| && s[entry.0].outbox[k] == RoomAssigned(entry.1);
      assert after[entry.0].outbox[k] == RoomAssigned(entry.1);
    }
    forall room | room in RoomsOf(n) ensures room in Rooms(after) {
      var k: nat :| k < |n.outbox| && n.outbox[k].RoomAssigned? && n.outbox[k].room == room;
      assert after[i].outbox[k].room == room;
      assert (i, room) in Opened(after);
    }
  }

  lemma EventsAreOK(seats: seq<string>, s: System, to: nat, from: nat, k: nat)
    requires Distinct(seats) && Inv(seats, s) && to < |s| && from < |s| && k < |s[from].outbox|
    ensures EventOK(seats[to], s[to], Seats(s), Rooms(s), s[from].outbox[k])
  {
    hide Inv, NodeInv, Less;
    var e := s[from].outbox[k];
    OutboxHere(seats, s, from);
    assert e in s[from].outbox;
    if e.RoomAssigned? {
      assert e.room.id != "";
      hide OutboxInv, WellMade, Distinct;
      assert (from, e.room) in Opened(s);
    } else if e.PlayerReady? {
      assert seats[from] in s[from].players && e.player.id == seats[from] && ReadyPlayer(e.player);
      hide OutboxInv, WellMade;
    }
  }

  lemma OutboxHere(seats: seq<string>, s: System, i: nat)
    requires Inv(seats, s) && i < |s|
    ensures |s| == |seats| && OutboxInv(seats[i], s[i], Seats(s))
  {
    hide NodeInv, OutboxInv;
  }

  lemma SystemKeeps(seats: seq<string>, s: System, i: nat, n: Node)
    requires Inv(seats, s) && i < |s| && Grows(s[i], n)
    requires NodeOK(seats[i], n, Seats(s) + n.players.Keys, Rooms(s) + RoomsOf(n))
    ensures Inv(seats, s[i := n])
  {
    hide NodeInv, OutboxInv;
    var after := s[i := n];
    SystemGrows(s, i, n);
    forall j | 0 <= j < |s| ensures NodeOK(seats[j], after[j], Seats(after), Rooms(after)) {
      if j != i {
        assert NodeOK(seats[j], s[j], Seats(s), Rooms(s));
        KnowingMore(seats[j], s[j], Seats(s), Rooms(s), Seats(after), Rooms(after));
      }
    }
  }

  lemma OwnPart(seats: seq<string>, s: System, i: nat)
    requires Inv(seats, s) && i < |s|
    ensures NodeOK(seats[i], s[i], Seats(s), Rooms(s)) && s[i].players.Keys <= Seats(s) && RoomsOf(s[i]) <= Rooms(s)
  {
    hide NodeInv, OutboxInv;
    forall room | room in RoomsOf(s[i]) ensures room in Rooms(s) {
      var k: nat :| k < |s[i].outbox| && s[i].outbox[k].RoomAssigned? && s[i].outbox[k].room == room;
      assert (i, room) in Opened(s);
    }
    forall id | id in s[i].players ensures id in Seats(s) {
    }
  }

  lemma NextKeeps(seats: seq<string>, s: System, step: Step)
    requires Distinct(seats) && Inv(seats, s) && AllKeyed(s)
    ensures Inv(seats, Next(seats, s, step))
  {
    if Enabled(seats, s, step) {
      match step
      case Local(i, call) =>
        OwnPart(seats, s, i);
        ServedKeeps(seats[i], s[i], Seats(s), Rooms(s), call);
        SystemKeeps(seats, s, i, Served(s[i], call));
      case Deliver(to, from, k) =>
        var e := s[from].outbox[k];
        OwnPart(seats, s, to);
        EventsAreOK(seats, s, to, from, k);
        HeardKeeps(seats[to], s[to], Seats(s), Rooms(s), e);
        var n := Heard(s[to], e);
        KnowingMore(seats[to], n, Seats(s), Rooms(s) + RoomsOf(n), Seats(s) + n.players.Keys, Rooms(s) + RoomsOf(n));
        SystemKeeps(seats, s, to, n);
    }
  }

  lemma {:induction false} RunKeeps(seats: seq<string>, steps: seq<Step>)
    requires Distinct(seats)
    ensures Inv(seats, Run(seats, steps))
  {
    if steps != [] {
      RunKeeps(seats, steps[..|steps| - 1]);
      NextKeeps(seats, Run(seats, steps[..|steps| - 1]), steps[|steps| - 1]);
    }
  }

  // ---------------------------------------------------------------------------
  // Any number of nodes
  // ---------------------------------------------------------------------------

  lemma OpenedIsWellMade(seats: seq<string>, s: System, i: nat, room: Room)
    requires Inv(seats, s) && (i, room) in Opened(s)
    ensures i < |s| && WellMade(seats[i], Seats(s), room) && RoomAssigned(room) in s[i].outbox
  {
    var k: nat :| k < |s[i].outbox| && s[i].outbox[k].RoomAssigned? && s[i].outbox[k].room == room;
    assert s[i].outbox[k] in s[i].outbox;
    assert OutboxInv(seats[i], s[i], Seats(s));
  }

  /** In every run each node opens at most one room in its lifetime. The room has two different registered
      members, its host is one of them, and the smaller-id one is the player of the node that opened it. */
  lemma OneRoomPerNode(seats: seq<string>, steps: seq<Step>, i: nat, room: Room, other: Room)
    requires Distinct(seats)
    requires (i, room) in Opened(Run(seats, steps)) && (i, other) in Opened(Run(seats, steps))
    ensures room == other
    ensures i < |seats| && WellMade(seats[i], Seats(Run(seats, steps)), room)
  {
    var s := Run(seats, steps);
    RunKeeps(seats, steps);
    OpenedIsWellMade(seats, s, i, room);
    assert OutboxInv(seats[i], s[i], Seats(s));
    var j: nat :| j < |s[i].outbox| && s[i].outbox[j].RoomAssigned? && s[i].outbox[j].room == room;
    var k: nat :| k < |s[i].outbox| && s[i].outbox[k].RoomAssigned? && s[i].outbox[k].room == other;
  }

  /** The rooms that were opened with this player as a member. */
  function Bookings(s: System, id: string): set<(nat, Room)> {
    set entry | entry in Opened(s) && id in entry.1.playerIDs :: entry
  }

  lemma {:induction false} OneToOne(seats: seq<string>, entries: set<(nat, Room)>, ids: set<string>)
    requires Distinct(seats)
    requires forall entry | entry in entries :: entry.0 < |seats| && seats[entry.0] in ids
    requires forall a, b | a in entries && b in entries && a.0 == b.0 :: a == b
    ensures |entries| <= |ids|
  {
    if entries != {} {
      var entry :| entry in entries;
      OneToOne(seats, entries - {entry}, ids - {seats[entry.0]});
    }
  }

  /** The ids that can open a room with this one in it: those up to it, except the largest of all. */
  function Openers(seats: seq<string>, id: string): set<string> {
    set seat | seat in seats && (seat == id || Less(seat, id)) && (exists other | other in seats :: Less(seat, other))
  }

  lemma OpenerIsLeastMember(seat: string, registered: set<string>, room: Room, id: string) returns (other: string)
    requires WellMade(seat, registered, room) && id in room.playerIDs
    ensures seat in room.playerIDs && (seat == id || Less(seat, id))
    ensures other in registered && Less(seat, other)
  {
    LessIsTotal(room.playerIDs[0], room.playerIDs[1]);
    other := if seat == room.playerIDs[0] then room.playerIDs[1] else room.playerIDs[0];
  }

  /** A player is a member of at most as many rooms as there are ids that can open one with it, whatever the network
      does: the k-th in id order of at most k, the last of at most one less, the smallest of at most one. */
  lemma BookingBound(seats: seq<string>, steps: seq<Step>, id: string)
    requires Distinct(seats)
    ensures |Bookings(Run(seats, steps), id)| <= |Openers(seats, id)|
  {
    var s := Run(seats, steps);
    var entries := Bookings(s, id);
    RunKeeps(seats, steps);
    hide Run, WellMade, Less, Inv;
    forall entry | entry in entries ensures entry.0 < |seats| && seats[entry.0] in Openers(seats, id) {
      OneRoomPerNode(seats, steps, entry.0, entry.1, entry.1);
      var other := OpenerIsLeastMember(seats[entry.0], Seats(s), entry.1, id);
      SeatIsListed(seats, s, other);
      assert seats[entry.0] in seats;
    }
    forall a, b | a in entries && b in entries && a.0 == b.0 ensures a == b {
      OneRoomPerNode(seats, steps, a.0, a.1, b.1);
    }
    OneToOne(seats, entries, Openers(seats, id));
  }

  // ---------------------------------------------------------------------------
  // Two nodes agree
  // ---------------------------------------------------------------------------

  /** At most one room was ever opened; every node's table holds just that room or nothing, and every
      player that has a room is in it. */
  ghost predicate Agreement(s: System) {
    && (forall a, b | a in Opened(s) && b in Opened(s) :: a == b)
    && (forall i, id | 0 <= i < |s| && id in s[i].rooms ::
          exists entry :: entry in Opened(s) && s[i].rooms == map[entry.1.id := entry.1])
    && (forall i, id | 0 <= i < |s| && id in s[i].players && s[i].players[id].roomID != "" ::
          && s[i].players[id].roomID in s[i].rooms
          && id in s[i].rooms[s[i].players[id].roomID].playerIDs)
  }

  lemma TwoMembers(seats: seq<string>, i: nat, m: string, n: string)
    requires Distinct(seats) && |seats| <= 2 && i < |seats|
    requires m in seats && n in seats && m != n && seats[i] == Smaller(m, n)
    ensures |seats| == 2 && Less(seats[i], seats[1 - i])
    ensures seats[0] in [m, n] && seats[1] in [m, n]
  {
    LessIsTotal(m, n);
    hide Less;
    var j: nat :| j < |seats| && seats[j] == m;
    var k: nat :| k < |seats| && seats[k] == n;
    assert j != k;
  }

  /** With two seats, only the node of the smaller one opens rooms. */
  lemma OpenerOfTwo(seats: seq<string>, s: System, i: nat, room: Room)
    requires Distinct(seats) && |seats| <= 2 && Inv(seats, s) && (i, room) in Opened(s)
    ensures i < |seats| == 2 && Less(seats[i], seats[1 - i])
    ensures seats[0] in room.playerIDs && seats[1] in room.playerIDs
  {
    OpenedIsWellMade(seats, s, i, room);
    var m := room.playerIDs;
    SeatIsListed(seats, s, m[0]);
    SeatIsListed(seats, s, m[1]);
    hide *;
    TwoMembers(seats, i, m[0], m[1]);
  }

  lemma SameOpener(seats: seq<string>, steps: seq<Step>, i: nat, room: Room, j: nat, other: Room)
    requires Distinct(seats) && |seats| <= 2
    requires (i, room) in Opened(Run(seats, steps)) && (j, other) in Opened(Run(seats, steps))
    ensures i == j && room == other
  {
    hide *;
    RunKeeps(seats, steps);
    OpenerOfTwo(seats, Run(seats, steps), i, room);
    OpenerOfTwo(seats, Run(seats, steps), j, other);
    if i != j {
      LessIsAsymmetric(seats[i], seats[1 - i]);
    }
    OneRoomPerNode(seats, steps, i, room, other);
  }

  lemma SeatIsListed(seats: seq<string>, s: System, id: string)
    requires Inv(seats, s) && id in Seats(s)
    ensures id in seats
  {
    var i: nat :| i < |s| && id in s[i].players;
    assert NodeInv(seats[i], s[i], Seats(s), Rooms(s));
    assert seats[i] == id;
  }

  /** Two nodes agree in every run, under loss, reordering and duplication. */
  lemma TwoNodesAgree(seats: seq<string>, steps: seq<Step>)
    requires Distinct(seats) && |seats| <= 2
    ensures Agreement(Run(seats, steps))
  {
    var s := Run(seats, steps);
    RunKeeps(seats, steps);
    forall a, b | a in Opened(s) && b in Opened(s) ensures a == b {
      SameOpener(seats, steps, a.0, a.1, b.0, b.1);
    }
    forall i, id | 0 <= i < |s| && id in s[i].rooms
      ensures exists entry :: entry in Opened(s) && s[i].rooms == map[entry.1.id := entry.1]
    {
      assert NodeInv(seats[i], s[i], Seats(s), Rooms(s));
      var entry :| entry in Opened(s) && entry.1 == s[i].rooms[id];
      forall other | other in s[i].rooms ensures other == entry.1.id && s[i].rooms[other] == entry.1 {
        var entry' :| entry' in Opened(s) && entry'.1 == s[i].rooms[other];
      }
      assert s[i].rooms == map[entry.1.id := entry.1];
    }
    forall i, id | 0 <= i < |s| && id in s[i].players && s[i].players[id].roomID != ""
      ensures s[i].players[id].roomID in s[i].rooms && id in s[i].rooms[s[i].players[id].roomID].playerIDs
    {
      assert NodeInv(seats[i], s[i], Seats(s), Rooms(s));
      var room :| room in Rooms(s) && room.id == s[i].players[id].roomID && id in room.playerIDs;
      assert s[i].rooms[room.id] in Rooms(s);
    }
  }

  // ---------------------------------------------------------------------------
  // Three nodes need not
  // ---------------------------------------------------------------------------

  /** No player is a member of two rooms. */
  ghost predicate NoDoubleBooking(s: System) {
    forall id, a, b | a in Bookings(s, id) && b in Bookings(s, id) :: a == b
  }

  lemma RunExtends(seats: seq<string>, steps: seq<Step>, step: Step)
    ensures Run(seats, steps + [step]) == Next(seats, Run(seats, steps), step)
  {
    assert (steps + [step])[..|steps|] == steps;
  }

  predicate OnlyChanges(s: System, after: System, i: nat) {
    |after| == |s| && forall m | 0 <= m < |s| && m != i :: after[m] == s[m]
  }

  lemma AfterCall(seats: seq<string>, steps: seq<Step>, i: nat, call: Call)
    requires i < |seats| && (call.Register? || call.Upsert? ==> call.id == seats[i])
    ensures OnlyChanges(Run(seats, steps), Run(seats, steps + [Local(i, call)]), i)
    ensures Run(seats, steps + [Local(i, call)])[i] == Served(Run(seats, steps)[i], call)
  {
    hide Run, Served;
    RunExtends(seats, steps, Local(i, call));
  }

  lemma AfterDelivery(seats: seq<string>, steps: seq<Step>, to: nat, from: nat, k: nat)
    requires to < |seats| && from < |seats| && k < |Run(seats, steps)[from].outbox|
    ensures OnlyChanges(Run(seats, steps), Run(seats, steps + [Deliver(to, from, k)]), to)
    ensures Run(seats, steps + [Deliver(to, from, k)])[to]
            == Heard(Run(seats, steps)[to], Run(seats, steps)[from].outbox[k])
  {
    hide Run, Heard;
    RunExtends(seats, steps, Deliver(to, from, k));
  }

  function Waiting(id: string, app: string, version: string): Player {
    Player(id, app, version, 0, true, "", HUMAN, "")
  }

  lemma AloneNoMatch(n: Node, app: string, version: string)
    requires WellKeyed(n) && |Candidates(n, app, version)| < 2
    ensures TryMatch(n, app, version) == n
  {
  }

  /** An otherwise new node that knows these remote players and whose own player has just said it is ready. */
  function ReadyNode(id: string, remote: map<string, Player>, app: string, version: string): Node {
    EMPTY_NODE.(players := map[id := Waiting(id, app, version)], remote := remote,
                outbox := [PlayerReady(Waiting(id, app, version))])
  }

  lemma GetsReady(id: string, remote: map<string, Player>, app: string, version: string)
    requires forall other | other in remote :: remote[other].id == other
    ensures var heard := EMPTY_NODE.(remote := remote);
            Served(Served(heard, Register(id, app, version)), Ready(id, 0))
            == TryMatch(ReadyNode(id, remote, app, version), app, version)
  {
    var registered := Registered(EMPTY_NODE.(remote := remote), id, app, version).0;
    assert registered.players == map[id := Player(id, app, version, 0, false, "", HUMAN, "")];
    assert MarkedReady(registered, id, 0) == ReadyNode(id, remote, app, version);
    hide TryMatch, Matched;
  }

  /** A player that registers on a node and gets ready there, with nobody heard of, just waits. */
  lemma GetsReadyAlone(id: string, app: string, version: string)
    ensures var n := Served(Served(EMPTY_NODE, Register(id, app, version)), Ready(id, 0));
            n == ReadyNode(id, map[], app, version) && WellKeyed(n)
  {
    GetsReady(id, map[], app, version);
    var n := ReadyNode(id, map[], app, version);
    assert Candidates(n, app, version) == map[id := Waiting(id, app, version)];
    AloneNoMatch(n, app, version);
    hide TryMatch, Matched, Served;
  }

  lemma HearsOfPlayer(id: string, app: string, version: string)
    ensures Heard(EMPTY_NODE, PlayerReady(Waiting(id, app, version)))
            == EMPTY_NODE.(remote := map[id := Waiting(id, app, version)])
  {
    var n := PlayerHeard(EMPTY_NODE, Waiting(id, app, version));
    assert n.remote == map[id := Waiting(id, app, version)];
    assert Candidates(n, app, version) == map[id := Waiting(id, app, version)];
    AloneNoMatch(n, app, version);
  }

  lemma MatchOfTwo(n: Node, id: string, peer: string, app: string, version: string)
    requires WellKeyed(n) && Candidates(n, app, version).Keys == {id, peer} && id in n.players && Less(id, peer)
    ensures Matched(n, app, version).Some? && peer in Matched(n, app, version).value.playerIDs
  {
    LessIsAsymmetric(id, peer);
    var c := Candidates(n, app, version);
    hide Less, Candidates, BestTwo, RoomName;
    assert |c| == |c.Keys| == 2;
    var best := BestTwo(c);
    assert best == (id, peer) || best == (peer, id);
  }

  lemma MatchAnnounces(n: Node, room: Room, app: string, version: string)
    requires WellKeyed(n) && Matched(n, app, version) == Some(room)
    ensures TryMatch(n, app, version).outbox == n.outbox + [RoomAssigned(room)]
  {
    hide Matched;
  }

  /** The node's second event announces a room with this player. */
  predicate Announces(n: Node, id: string) {
    |n.outbox| == 2 && n.outbox[1].RoomAssigned? && id in n.outbox[1].room.playerIDs
  }

  lemma CandidatesOfTwo(id: string, peer: string, app: string, version: string)
    requires id != peer
    ensures var n := ReadyNode(id, map[peer := Waiting(peer, app, version)], app, version);
            WellKeyed(n) && Candidates(n, app, version).Keys == {id, peer} && id in n.players
  {
  }

  /** A player with a smaller id that gets ready where the other has been heard of opens a room with it. */
  lemma OpensRoomWith(id: string, peer: string, app: string, version: string)
    requires Less(id, peer)
    ensures var heard := EMPTY_NODE.(remote := map[peer := Waiting(peer, app, version)]);
            Announces(Served(Served(heard, Register(id, app, version)), Ready(id, 0)), peer)
  {
    LessIsAsymmetric(id, peer);
    CandidatesOfTwo(id, peer, app, version);
    hide TryMatch, Matched, Served, Candidates, Less, WellKeyed;
    var remote := map[peer := Waiting(peer, app, version)];
    var n := ReadyNode(id, remote, app, version);
    GetsReady(id, remote, app, version);
    MatchOfTwo(n, id, peer, app, version);
    MatchAnnounces(n, Matched(n, app, version).value, app, version);
  }

  /** The largest of three different ids, and the two below it. */
  lemma LargestOfThree(seats: seq<string>) returns (i: nat, j: nat, k: nat)
    requires Distinct(seats) && |seats| >= 3
    ensures i < 3 && j < 3 && k < 3 && i != j && i != k && j != k
    ensures Less(seats[i], seats[k]) && Less(seats[j], seats[k])
  {
    LessIsTotal(seats[0], seats[1]);
    LessIsTotal(seats[0], seats[2]);
    LessIsTotal(seats[1], seats[2]);
    var k' := if Less(seats[0], seats[1]) then 1 else 0;
    k := if Less(seats[k'], seats[2]) then 2 else k';
    i := if k == 0 then 1 else 0;
    j := if k == 2 then 1 else 2;
    if k == 2 {
      if k' == 1 { LessIsTransitive(seats[0], seats[1], seats[2]); }
      else { LessIsTransitive(seats[1], seats[0], seats[2]); }
    }
  }

  function WaitSteps(seats: seq<string>, k: nat, app: string, version: string): seq<Step>
    requires k < |seats|
  {
    [Local(k, Register(seats[k], app, version)), Local(k, Ready(seats[k], 0))]
  }

  function BookSteps(seats: seq<string>, i: nat, k: nat, app: string, version: string): seq<Step>
    requires i < |seats|
  {
    [Deliver(i, k, 0), Local(i, Register(seats[i], app, version)), Local(i, Ready(seats[i], 0))]
  }

  /** Node k's player registers and waits. */
  lemma Waits(seats: seq<string>, steps: seq<Step>, k: nat, app: string, version: string)
    requires k < |seats| && Run(seats, steps)[k] == EMPTY_NODE
    ensures var after := Run(seats, steps + WaitSteps(seats, k, app, version));
            && OnlyChanges(Run(seats, steps), after, k)
            && after[k] == ReadyNode(seats[k], map[], app, version)
  {
    GetsReadyAlone(seats[k], app, version);
    var register, ready := Register(seats[k], app, version), Ready(seats[k], 0);
    hide Served, Run;
    AfterCall(seats, steps, k, register);
    AfterCall(seats, steps + [Local(k, register)], k, ready);
    assert steps + WaitSteps(seats, k, app, version) == steps + [Local(k, register)] + [Local(k, ready)];
  }

  /** Node i hears that k's player waits, then its own player registers and gets ready. */
  lemma BooksWaiting(seats: seq<string>, steps: seq<Step>, i: nat, k: nat, app: string, version: string)
    requires i < |seats| && k < |seats| && i != k && Less(seats[i], seats[k])
    requires Run(seats, steps)[i] == EMPTY_NODE
    requires Run(seats, steps)[k].outbox == [PlayerReady(Waiting(seats[k], app, version))]
    ensures var after := Run(seats, steps + BookSteps(seats, i, k, app, version));
            && OnlyChanges(Run(seats, steps), after, i)
            && Announces(after[i], seats[k])
  {
    var hear, register, ready := Deliver(i, k, 0), Register(seats[i], app, version), Ready(seats[i], 0);
    assert steps + BookSteps(seats, i, k, app, version) == steps + [hear] + [Local(i, register)] + [Local(i, ready)];
    assert forall a, b, c, d: System | OnlyChanges(a, b, i) && OnlyChanges(b, c, i)
        && OnlyChanges(c, d, i) :: OnlyChanges(a, d, i);
    hide *;
    HearsOfPlayer(seats[k], app, version);
    OpensRoomWith(seats[i], seats[k], app, version);
    AfterDelivery(seats, steps, i, k, 0);
    AfterCall(seats, steps + [hear], i, register);
    AfterCall(seats, steps + [hear] + [Local(i, register)], i, ready);
  }

  lemma BookedTwice(s: System, i: nat, j: nat, id: string)
    requires i < |s| && j < |s| && i != j && Announces(s[i], id) && Announces(s[j], id)
    ensures !NoDoubleBooking(s)
  {
    var a, b := (i, s[i].outbox[1].room), (j, s[j].outbox[1].room);
    assert a in Opened(s) && b in Opened(s);
    assert a in Bookings(s, id) && b in Bookings(s, id) && a != b;
  }

  lemma StartsEmpty(seats: seq<string>)
    ensures forall m | 0 <= m < |seats| :: Run(seats, [])[m] == EMPTY_NODE
  {
  }

  /** With three nodes or more some run books a player into two rooms: two nodes have both heard of it. */
  lemma ThreeNodesCanDoubleBook(seats: seq<string>, app: string, version: string) returns (steps: seq<Step>)
    requires Distinct(seats) && |seats| >= 3
    ensures !NoDoubleBooking(Run(seats, steps))
  {
    var i, j, k := LargestOfThree(seats);
    hide Run, Less, NoDoubleBooking, WaitSteps, BookSteps, Announces, Waiting;
    steps := [];
    StartsEmpty(seats);
    Waits(seats, steps, k, app, version);
    steps := steps + WaitSteps(seats, k, app, version);
    BooksWaiting(seats, steps, i, k, app, version);
    steps := steps + BookSteps(seats, i, k, app, version);
    BooksWaiting(seats, steps, j, k, app, version);
    steps := steps + BookSteps(seats, j, k, app, version);
    BookedTwice(Run(seats, steps), i, j, seats[k]);
  }

  /** No run books a player twice if and only if there are at most two nodes. */
  lemma AgreementNeedsTwoNodes(seats: seq<string>)
    requires Distinct(seats)
    ensures (forall steps :: NoDoubleBooking(Run(seats, steps))) <==> |seats| <= 2
  {
    if |seats| <= 2 {
      forall steps ensures NoDoubleBooking(Run(seats, steps)) {
        TwoNodesAgree(seats, steps);
      }
    } else {
      var steps := ThreeNodesCanDoubleBook(seats, "", "");
    }
  }
}
