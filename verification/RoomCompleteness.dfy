/** Two nodes playing the same version of the same app: once both players have said they are ready and
    every event has reached both nodes, in whatever order, they sit in the same room. */
module RoomCompleteness {
  import opened Strings
  import opened RoomManager
  import opened RoomProtocol

  predicate OfApp(p: Player, appID: string, version: string) {
    p.appID == appID && p.version == version
  }

  /** Every registration of the run is for the one app and version. */
  predicate OneApp(steps: seq<Step>, appID: string, version: string) {
    forall step | step in steps && step.Local? && (step.call.Register? || step.call.Upsert?) ::
      step.call.appID == appID && step.call.version == version
  }

  /** The events that have reached node i. */
  ghost function Reached(seats: seq<string>, steps: seq<Step>, i: nat): set<Event> {
    if steps == [] then {}
    else
      var n := |steps| - 1;
      var s := Run(seats, steps[..n]);
      Reached(seats, steps[..n], i)
      + if Enabled(seats, s, steps[n]) && steps[n].Deliver? && steps[n].to == i
        then {s[steps[n].from].outbox[steps[n].k]} else {}
  }

  /** One node's tables hold players of the app only, and registered players have a control mode. */
  ghost predicate AppInv(n: Node, appID: string, version: string) {
    && (forall id | id in n.players :: OfApp(n.players[id], appID, version) && n.players[id].controlMode != "")
    && (forall id | id in n.remote :: OfApp(n.remote[id], appID, version))
    && (forall e | e in n.outbox && e.PlayerReady? :: OfApp(e.player, appID, version) && e.player.controlMode != "")
  }

  /** A player that has said it is ready and has no room yet still counts as ready. */
  ghost predicate StaysReady(n: Node) {
    (exists e :: e in n.outbox && e.PlayerReady?) ==>
      forall id | id in n.players && n.players[id].roomID == "" :: n.players[id].ready
  }

  /** A node that has heard of a ready player remembers it until a room is opened with it. */
  ghost predicate Remembers(seat: string, n: Node, heard: set<Event>, rooms: set<Room>) {
    forall e | e in heard && e.PlayerReady? && e.player.id != seat ::
      e.player.id in n.remote || exists room :: room in rooms && e.player.id in room.playerIDs
  }

  /** A node that has heard of its player's room has seated it. */
  ghost predicate TakesSeat(seat: string, n: Node, heard: set<Event>) {
    forall e | e in heard && e.RoomAssigned? && seat in e.room.playerIDs ::
      seat in n.players && n.players[seat].roomID != ""
  }

  /** Nothing that could be matched is left waiting on a node between its steps. */
  ghost predicate AtRest(n: Node, appID: string, version: string)
    requires WellKeyed(n)
  {
    Matched(n, appID, version) == None
  }

  ghost predicate Settled(seat: string, n: Node, heard: set<Event>, rooms: set<Room>, appID: string, version: string) {
    && WellKeyed(n)
    && AppInv(n, appID, version) && StaysReady(n)
    && Remembers(seat, n, heard, rooms) && TakesSeat(seat, n, heard)
    && AtRest(n, appID, version)
  }

  lemma RoomsGrow(seat: string, n: Node, heard: set<Event>, rooms: set<Room>, rooms': set<Room>,
                  appID: string, version: string)
    requires Settled(seat, n, heard, rooms, appID, version) && rooms <= rooms'
    ensures Settled(seat, n, heard, rooms', appID, version)
  {
    hide AppInv, StaysReady, TakesSeat, AtRest;
  }

  /** A node whose own player is not eligible has nothing to match. */
  lemma NobodyToSeat(seat: string, n: Node, appID: string, version: string)
    requires WellKeyed(n) && Apart(n) && n.players.Keys <= {seat}
    requires seat in n.players ==> !Eligible(n.players[seat], appID, version)
    ensures AtRest(n, appID, version)
  {
    if Matched(n, appID, version).Some? {
      OwnerIsEligible(n, appID, version);
      assert false;
    }
  }

  lemma MatchOpensForSeat(seat: string, n: Node, appID: string, version: string)
    requires WellKeyed(n) && Apart(n) && n.players.Keys <= {seat} && Matched(n, appID, version).Some?
    ensures var room := Matched(n, appID, version).value;
            room.id != "" && Opens(seat, n, TryMatch(n, appID, version), room)
  {
    var room := Matched(n, appID, version).value;
    OwnerIsEligible(n, appID, version);
    MatchedRoom(n, appID, version);
    hide Matched, TryMatch, Less, RoomName;
    assert Smaller(room.playerIDs[0], room.playerIDs[1]) == seat;
    MatchOpens(seat, n, appID, version);
  }

  lemma MoreRooms(seat: string, n: Node, heard: set<Event>, rooms: set<Room>, rooms': set<Room>)
    requires Remembers(seat, n, heard, rooms) && rooms <= rooms'
    ensures Remembers(seat, n, heard, rooms')
  {
  }

  /** A match leaves a settled node: it opens a room with the node's player or there was none to open. */
  lemma MatchSettles(seat: string, n: Node, heard: set<Event>, rooms: set<Room>, appID: string, version: string)
    requires WellKeyed(n) && Apart(n) && n.players.Keys <= {seat}
    requires AppInv(n, appID, version) && StaysReady(n)
    requires Remembers(seat, n, heard, rooms) && TakesSeat(seat, n, heard)
    ensures var after := TryMatch(n, appID, version);
            Settled(seat, after, heard, rooms + RoomsOf(after), appID, version)
  {
    var after := TryMatch(n, appID, version);
    MatchIsIdempotent(n, appID, version);
    hide Matched, Apart, WellKeyed, AppInv, StaysReady, Remembers, TakesSeat, Opens;
    if Matched(n, appID, version).Some? {
      MatchOpensForSeat(seat, n, appID, version);
      OpeningSettles(seat, n, after, heard, rooms, Matched(n, appID, version).value, appID, version);
    } else {
      MoreRooms(seat, n, heard, rooms, rooms + RoomsOf(after));
    }
  }

  lemma OpeningSettles(seat: string, n: Node, after: Node, heard: set<Event>, rooms: set<Room>, room: Room,
                       appID: string, version: string)
    requires Opens(seat, n, after, room) && room.id != "" && n.players.Keys <= {seat}
    requires AppInv(n, appID, version)
    requires Remembers(seat, n, heard, rooms) && TakesSeat(seat, n, heard)
    ensures AppInv(after, appID, version) && StaysReady(after)
    ensures Remembers(seat, after, heard, rooms + RoomsOf(after)) && TakesSeat(seat, after, heard)
  {
    assert after.outbox[|n.outbox|] == RoomAssigned(room);
    assert room in RoomsOf(after);
  }

  // ---------------------------------------------------------------------------
  // Each step leaves its node settled
  // ---------------------------------------------------------------------------

  /** What is known of every node of a two-node system besides: its tables, and that both players are in every room. */
  ghost predicate TwoNodeView(seat: string, n: Node, registered: set<string>, rooms: set<Room>) {
    && NodeOK(seat, n, registered, rooms) && (seat in registered ==> seat in n.players)
    && forall room | room in rooms :: seat in room.playerIDs && room.id != ""
        && forall id | id in room.playerIDs :: id in registered
  }

  lemma HearingPlayerSettles(seat: string, n: Node, heard: set<Event>, registered: set<string>, rooms: set<Room>,
          p: Player, appID: string, version: string)
    requires Settled(seat, n, heard, rooms, appID, version) && NodeOK(seat, n, registered, rooms)
    requires EventOK(seat, n, registered, rooms, PlayerReady(p)) && OfApp(p, appID, version)
    ensures var after := Heard(n, PlayerReady(p));
            Settled(seat, after, heard + {PlayerReady(p)}, rooms + RoomsOf(after), appID, version)
  {
    var told := PlayerHeard(n, p);
    HearingPlayerKeeps(seat, n, registered, rooms, p);
    Singleton(seat, told, registered, rooms);
    HearingPlayerRemembers(seat, n, heard, rooms, p, appID, version);
    hide AppInv, StaysReady, TakesSeat, Remembers, OutboxInv, PlayerHeard, Apart, TryMatch;
    MatchSettles(seat, told, heard + {PlayerReady(p)}, rooms, appID, version);
  }

  lemma HearingPlayerRemembers(seat: string, n: Node, heard: set<Event>, rooms: set<Room>, p: Player,
                               appID: string, version: string)
    requires WellKeyed(n) && n.players.Keys <= {seat}
    requires AppInv(n, appID, version) && StaysReady(n) && Remembers(seat, n, heard, rooms) && TakesSeat(seat, n, heard)
    requires ReadyPlayer(p) && (p.id == seat ==> seat in n.players) && OfApp(p, appID, version)
    ensures var told := PlayerHeard(n, p);
            && AppInv(told, appID, version) && StaysReady(told)
            && Remembers(seat, told, heard + {PlayerReady(p)}, rooms) && TakesSeat(seat, told, heard + {PlayerReady(p)})
  {
  }

  lemma HearingAssignmentRemembers(seat: string, n: Node, heard: set<Event>, rooms: set<Room>, room: Room,
                                   appID: string, version: string)
    requires n.players.Keys <= {seat} && seat in room.playerIDs && seat in n.players && room in rooms && room.id != ""
    requires AppInv(n, appID, version) && StaysReady(n) && Remembers(seat, n, heard, rooms) && TakesSeat(seat, n, heard)
    ensures var after := AssignmentHeard(n, room);
            && AppInv(after, appID, version) && StaysReady(after)
            && Remembers(seat, after, heard + {RoomAssigned(room)}, rooms)
            && TakesSeat(seat, after, heard + {RoomAssigned(room)})
            && after.players[seat].roomID != ""
  {
  }

  lemma HearingAssignmentSettles(seat: string, n: Node, heard: set<Event>, registered: set<string>,
          rooms: set<Room>, room: Room, appID: string, version: string)
    requires Settled(seat, n, heard, rooms, appID, version) && TwoNodeView(seat, n, registered, rooms)
    requires room in rooms
    ensures var after := Heard(n, RoomAssigned(room));
            Settled(seat, after, heard + {RoomAssigned(room)}, rooms + RoomsOf(after), appID, version)
  {
    var after := AssignmentHeard(n, room);
    HearingAssignmentKeeps(seat, n, registered, rooms, room);
    HearingAssignmentRemembers(seat, n, heard, rooms, room, appID, version);
    Singleton(seat, after, registered, rooms);
    assert after.players.Keys <= {seat};
    hide OutboxInv, Matched, AppInv, StaysReady, Remembers, TakesSeat, Apart, AssignmentHeard;
    NobodyToSeat(seat, after, appID, version);
    MoreRooms(seat, after, heard + {RoomAssigned(room)}, rooms, rooms + RoomsOf(after));
  }

  /** The node has published nothing about players. */
  predicate SaysNothing(n: Node, after: Node) {
    after.outbox == n.outbox
    || (|after.outbox| == |n.outbox| + 1 && after.outbox == n.outbox + [after.outbox[|n.outbox|]]
        && !after.outbox[|n.outbox|].PlayerReady?)
  }

  /** The node does nothing matching looks at. */
  predicate Quiet(n: Node, after: Node) {
    after.players == n.players && after.remote == n.remote && after.seqNo == n.seqNo && SaysNothing(n, after)
  }

  lemma NothingSaid(n: Node, after: Node, appID: string, version: string)
    requires AppInv(n, appID, version) && StaysReady(n)
    requires Quiet(n, after)
    ensures AppInv(after, appID, version) && StaysReady(after)
  {
    assert forall e | e in after.outbox && e.PlayerReady? :: e in n.outbox;
  }

  lemma QuietIsAtRest(n: Node, after: Node, appID: string, version: string)
    requires WellKeyed(n) && AtRest(n, appID, version) && Quiet(n, after)
    ensures WellKeyed(after) && AtRest(after, appID, version)
  {
    assert Candidates(after, appID, version) == Candidates(n, appID, version);
    hide Candidates, BestTwo, SaysNothing, RoomName, Smaller, Keyed;
  }

  lemma QuietStepSettles(seat: string, n: Node, after: Node, heard: set<Event>, e: Event, rooms: set<Room>,
                         appID: string, version: string)
    requires Settled(seat, n, heard, rooms, appID, version) && Quiet(n, after)
    requires !e.PlayerReady? && !e.RoomAssigned?
    ensures Settled(seat, after, heard, rooms + RoomsOf(after), appID, version)
    ensures Settled(seat, after, heard + {e}, rooms + RoomsOf(after), appID, version)
  {
    NothingSaid(n, after, appID, version);
    QuietIsAtRest(n, after, appID, version);
    hide AppInv, StaysReady, AtRest, SaysNothing, WellKeyed;
  }

  lemma QuietSteps(n: Node, roomID: string, input: Input, published: bool, e: Event)
    requires WellKeyed(n)
    ensures Quiet(n, Served(n, Post(roomID, input, published)))
    ensures Quiet(n, Heard(n, RoomInput(roomID, input)))
    ensures e.ControlSwitched? ==> Quiet(n, Heard(n, e))
  {
  }

  /** The player's control mode is all that changed in the tables. */
  predicate ControlChanged(n: Node, after: Node, roomID: string, id: string, toMode: string) {
    && roomID in n.rooms && id in n.players && n.players[id].roomID == roomID && toMode != ""
    && after.players.Keys == n.players.Keys && after.remote == n.remote
    && forall other | other in n.players ::
         after.players[other] == if other == id
                                 then n.players[id].(controlMode := toMode, agentID := after.players[id].agentID)
                                 else n.players[other]
  }

  /** Only a seated player's control can be switched; nothing about players is published. */
  lemma ToggleShape(n: Node, roomID: string, id: string, toMode: string, agentID: string)
    requires WellKeyed(n)
    ensures var after := Served(n, Toggle(roomID, id, toMode, agentID));
            SaysNothing(n, after) && (after == n || ControlChanged(n, after, roomID, id, toMode))
  {
  }

  lemma TogglingSettles(seat: string, n: Node, heard: set<Event>, registered: set<string>, rooms: set<Room>,
                        roomID: string, id: string, toMode: string, agentID: string, appID: string, version: string)
    requires Settled(seat, n, heard, rooms, appID, version) && TwoNodeView(seat, n, registered, rooms)
    ensures var after := Served(n, Toggle(roomID, id, toMode, agentID));
            Settled(seat, after, heard, rooms + RoomsOf(after), appID, version)
  {
    var after := Served(n, Toggle(roomID, id, toMode, agentID));
    ToggleShape(n, roomID, id, toMode, agentID);
    if after == n {
      hide AppInv, StaysReady, AtRest, NodeOK, TakesSeat;
      RoomsGrow(seat, n, heard, rooms, rooms + RoomsOf(after), appID, version);
    } else {
      SeatedPlayerIsIdle(seat, n, registered, rooms, id, roomID);
      hide Served, NodeOK, Matched, AtRest;
      assert forall e | e in after.outbox && e.PlayerReady? :: e in n.outbox;
      assert AppInv(after, appID, version) && StaysReady(after);
      hide AppInv, StaysReady;
      NobodyToSeat(seat, after, appID, version);
      MoreRooms(seat, after, heard, rooms, rooms + RoomsOf(after));
    }
  }

  lemma SeatedPlayerIsIdle(seat: string, n: Node, registered: set<string>, rooms: set<Room>, id: string, roomID: string)
    requires TwoNodeView(seat, n, registered, rooms) && roomID in n.rooms && id in n.players
        && n.players[id].roomID == roomID
    ensures id == seat && n.players[seat].roomID != "" && Apart(n) && n.players.Keys == {seat}
  {
    Singleton(seat, n, registered, rooms);
    assert n.rooms[roomID] in rooms;
    hide OutboxInv, Apart;
  }

  lemma RegisteringAgain(n: Node, call: Call, appID: string, version: string)
    requires WellKeyed(n) && AppInv(n, appID, version) && n.players != map[]
    requires (call.Register? || call.Upsert?) && call.appID == appID && call.version == version
    ensures Served(n, call) == n
  {
    assert call.id in n.players ==> n.players == n.players[call.id := n.players[call.id]];
  }

  lemma RegisteringFirst(seat: string, n: Node, call: Call, appID: string, version: string)
    requires WellKeyed(n) && AppInv(n, appID, version) && n.players == map[]
    requires (call.Register? || call.Upsert?) && call.appID == appID && call.version == version && call.id == seat
    requires forall e | e in n.outbox :: !e.PlayerReady?
    ensures var after := Served(n, call);
            && after.players.Keys == {seat} && !after.players[seat].ready
            && after.remote == n.remote && after.outbox == n.outbox
            && AppInv(after, appID, version) && StaysReady(after)
  {
  }

  lemma RegisteringSettles(seat: string, n: Node, heard: set<Event>, registered: set<string>, rooms: set<Room>,
                           call: Call, appID: string, version: string)
    requires Settled(seat, n, heard, rooms, appID, version) && TwoNodeView(seat, n, registered, rooms)
    requires (call.Register? || call.Upsert?) && call.appID == appID && call.version == version
    requires call.id == seat || n.players != map[]
    ensures var after := Served(n, call);
            Settled(seat, after, heard, rooms + RoomsOf(after), appID, version)
  {
    var after := Served(n, call);
    if n.players != map[] {
      RegisteringAgain(n, call, appID, version);
      hide AppInv, StaysReady, AtRest, NodeOK, TakesSeat;
      RoomsGrow(seat, n, heard, rooms, rooms + RoomsOf(after), appID, version);
    } else {
      RegisteringFirst(seat, n, call, appID, version);
      RegisteringKeeps(seat, n, registered, rooms, call);
      Singleton(seat, after, registered, rooms);
      hide Served, AppInv, StaysReady, NodeOK, AtRest;
      NobodyToSeat(seat, after, appID, version);
      MoreRooms(seat, after, heard, rooms, rooms + RoomsOf(after));
    }
  }

  lemma ReadySettles(seat: string, n: Node, heard: set<Event>, registered: set<string>, rooms: set<Room>,
                     id: string, ping: int, appID: string, version: string)
    requires Settled(seat, n, heard, rooms, appID, version) && TwoNodeView(seat, n, registered, rooms)
    requires n.players.Keys <= registered
    ensures var after := Served(n, Ready(id, ping));
            Settled(seat, after, heard, rooms + RoomsOf(after), appID, version)
  {
    var after := Served(n, Ready(id, ping));
    if ReadyError(n, id, ping) == None {
      var marked := MarkedReady(n, id, ping);
      ReadyKeeps(seat, n, registered, rooms, id, ping);
      Singleton(seat, marked, registered, rooms);
      MarkingSettles(seat, n, heard, rooms, id, ping, appID, version);
      hide AppInv, StaysReady, TakesSeat, Remembers, OutboxInv, Apart, TryMatch;
      MatchSettles(seat, marked, heard, rooms, appID, version);
    } else {
      hide AtRest, AppInv, StaysReady;
      RoomsGrow(seat, n, heard, rooms, rooms + RoomsOf(after), appID, version);
    }
  }

  lemma MarkingSettles(seat: string, n: Node, heard: set<Event>, rooms: set<Room>, id: string, ping: int,
                       appID: string, version: string)
    requires WellKeyed(n) && n.players.Keys <= {seat} && ReadyError(n, id, ping) == None
    requires AppInv(n, appID, version) && Remembers(seat, n, heard, rooms) && TakesSeat(seat, n, heard)
    ensures var marked := MarkedReady(n, id, ping);
            && AppInv(marked, appID, version) && StaysReady(marked)
            && Remembers(seat, marked, heard, rooms) && TakesSeat(seat, marked, heard)
            && OfApp(n.players[id], appID, version)
  {
  }

  // ---------------------------------------------------------------------------
  // Runs of two nodes
  // ---------------------------------------------------------------------------

  lemma WellMadeFacts(seat: string, registered: set<string>, room: Room)
    requires WellMade(seat, registered, room)
    ensures room.id != "" && forall id | id in room.playerIDs :: id in registered
  {
    hide Smaller;
  }

  lemma OpenerOf(s: System, room: Room) returns (i: nat)
    requires room in Rooms(s)
    ensures (i, room) in Opened(s)
  {
    var entry :| entry in Opened(s) && entry.1 == room;
    i := entry.0;
  }

  lemma RoomOfTwo(seats: seq<string>, s: System, i: nat, room: Room)
    requires Distinct(seats) && |seats| == 2 && Inv(seats, s) && i < 2 && room in Rooms(s)
    ensures seats[i] in room.playerIDs && room.id != "" && forall id | id in room.playerIDs :: id in Seats(s)
  {
    hide *;
    var opener := OpenerOf(s, room);
    OpenerOfTwo(seats, s, opener, room);
    OpenedIsWellMade(seats, s, opener, room);
    WellMadeFacts(seats[opener], Seats(s), room);
  }

  lemma ViewOfTwo(seats: seq<string>, s: System, i: nat)
    requires Distinct(seats) && |seats| == 2 && Inv(seats, s) && i < 2
    ensures TwoNodeView(seats[i], s[i], Seats(s), Rooms(s))
    ensures s[i].players.Keys <= Seats(s) && RoomsOf(s[i]) <= Rooms(s)
  {
    OwnPart(seats, s, i);
    hide Inv, Opened, Seats, Rooms, NodeOK;
    forall room | room in Rooms(s)
      ensures seats[i] in room.playerIDs && room.id != "" && forall id | id in room.playerIDs :: id in Seats(s)
    {
      RoomOfTwo(seats, s, i, room);
    }
    if seats[i] in Seats(s) {
      RegisteredAtHome(seats, s, i);
    }
  }

  lemma RegisteredAtHome(seats: seq<string>, s: System, i: nat)
    requires Distinct(seats) && Inv(seats, s) && i < |s| && seats[i] in Seats(s)
    ensures seats[i] in s[i].players
  {
    hide OutboxInv;
    var j: nat :| j < |s| && seats[i] in s[j].players;
    assert NodeInv(seats[j], s[j], Seats(s), Rooms(s));
  }

  /** What one step of the system does to its node. */
  lemma StepSettles(seats: seq<string>, s: System, step: Step, i: nat, heard: set<Event>, appID: string,
          version: string)
    requires Distinct(seats) && |seats| == 2 && Inv(seats, s) && AllKeyed(s)
    requires Enabled(seats, s, step) && OneApp([step], appID, version)
    requires i == NodeOf(step)
    requires Settled(seats[i], s[i], heard, Rooms(s), appID, version)
    requires step.Deliver? ==> AppInv(s[step.from], appID, version)
    ensures var after := Next(seats, s, step)[i];
            && Grows(s[i], after)
            && Settled(seats[i], after,
                       heard + if step.Deliver? then {s[step.from].outbox[step.k]} else {},
                       Rooms(s) + RoomsOf(after), appID, version)
  {
    ViewOfTwo(seats, s, i);
    match step
    case Local(node, call) =>
      CallSettles(seats[i], s[i], heard, Seats(s), Rooms(s), call, appID, version);
    case Deliver(to, from, k) =>
      var e := s[from].outbox[k];
      EventsAreOK(seats, s, to, from, k);
      assert e in s[from].outbox;
      assert e.PlayerReady? ==> OfApp(e.player, appID, version);
      EventSettles(seats[i], s[i], heard, Seats(s), Rooms(s), e, appID, version);
  }

  lemma CallSettles(seat: string, n: Node, heard: set<Event>, registered: set<string>, rooms: set<Room>,
                    call: Call, appID: string, version: string)
    requires Settled(seat, n, heard, rooms, appID, version) && TwoNodeView(seat, n, registered, rooms)
    requires n.players.Keys <= registered
    requires call.Register? || call.Upsert? ==>
      call.appID == appID && call.version == version && (call.id == seat || n.players != map[])
    ensures var after := Served(n, call);
            Grows(n, after) && Settled(seat, after, heard, rooms + RoomsOf(after), appID, version)
  {
    ServedKeeps(seat, n, registered, rooms, call);
    hide Settled, NodeOK, Served;
    match call
    case Register(_, _, _) => RegisteringSettles(seat, n, heard, registered, rooms, call, appID, version);
    case Upsert(_, _, _) => RegisteringSettles(seat, n, heard, registered, rooms, call, appID, version);
    case Ready(id, ping) => ReadySettles(seat, n, heard, registered, rooms, id, ping, appID, version);
    case Toggle(roomID, id, toMode, agentID) =>
      TogglingSettles(seat, n, heard, registered, rooms, roomID, id, toMode, agentID, appID, version);
    case Post(roomID, input, published) =>
      QuietSteps(n, roomID, input, published, RoomInput(roomID, input));
      QuietStepSettles(seat, n, Served(n, call), heard, RoomInput(roomID, input), rooms, appID, version);
  }

  lemma EventSettles(seat: string, n: Node, heard: set<Event>, registered: set<string>, rooms: set<Room>,
                     e: Event, appID: string, version: string)
    requires Settled(seat, n, heard, rooms, appID, version) && TwoNodeView(seat, n, registered, rooms)
    requires n.players.Keys <= registered && RoomsOf(n) <= rooms
    requires EventOK(seat, n, registered, rooms, e) && (e.PlayerReady? ==> OfApp(e.player, appID, version))
    ensures var after := Heard(n, e);
            Grows(n, after) && Settled(seat, after, heard + {e}, rooms + RoomsOf(after), appID, version)
  {
    HeardKeeps(seat, n, registered, rooms, e);
    hide Settled, NodeOK, Heard;
    match e
    case PlayerReady(p) => HearingPlayerSettles(seat, n, heard, registered, rooms, p, appID, version);
    case RoomAssigned(room) => HearingAssignmentSettles(seat, n, heard, registered, rooms, room, appID, version);
    case RoomInput(roomID, input) =>
      QuietSteps(n, roomID, input, true, e);
      QuietStepSettles(seat, n, Heard(n, e), heard, e, rooms, appID, version);
    case ControlSwitched(room, id, fromMode, toMode, agentID) =>
      QuietSteps(n, "", Input("", "", "", NoBoard), true, e);
      QuietStepSettles(seat, n, Heard(n, e), heard, e, rooms, appID, version);
  }

  ghost predicate AllSettled(seats: seq<string>, steps: seq<Step>, appID: string, version: string) {
    var s := Run(seats, steps);
    forall i | 0 <= i < |s| :: Settled(seats[i], s[i], Reached(seats, steps, i), Rooms(s), appID, version)
  }

  lemma FreshIsSettled(seat: string, rooms: set<Room>, appID: string, version: string)
    ensures Settled(seat, EMPTY_NODE, {}, rooms, appID, version)
  {
    assert Candidates(EMPTY_NODE, appID, version) == map[];
    hide Candidates, BestTwo;
  }

  lemma ReachedExtends(seats: seq<string>, steps: seq<Step>, step: Step, i: nat)
    ensures var s := Run(seats, steps);
            Reached(seats, steps + [step], i)
            == Reached(seats, steps, i)
               + if Enabled(seats, s, step) && step.Deliver? && step.to == i then {s[step.from].outbox[step.k]} else {}
  {
    assert (steps + [step])[..|steps|] == steps;
    hide Run;
  }

  /** The node a step runs on. */
  function NodeOf(step: Step): nat {
    match step case Local(node, _) => node case Deliver(to, _, _) => to
  }

  lemma SettledAt(seats: seq<string>, steps: seq<Step>, i: nat, appID: string, version: string)
    requires AllSettled(seats, steps, appID, version) && i < |seats|
    ensures var s := Run(seats, steps);
            Settled(seats[i], s[i], Reached(seats, steps, i), Rooms(s), appID, version) && AppInv(s[i], appID, version)
  {
    hide Run, AppInv, StaysReady, Remembers, TakesSeat, AtRest, Reached;
  }

  lemma NextSettlesEach(seats: seq<string>, steps: seq<Step>, step: Step, j: nat, appID: string, version: string)
    requires Distinct(seats) && |seats| == 2 && OneApp([step], appID, version) && j < 2
    requires AllSettled(seats, steps, appID, version) && Enabled(seats, Run(seats, steps), step)
    ensures var after := Next(seats, Run(seats, steps), step);
            Settled(seats[j], after[j], Reached(seats, steps + [step], j), Rooms(after), appID, version)
  {
    var s := Run(seats, steps);
    var i := NodeOf(step);
    hide Run, Settled, Inv, AppInv, Next, Rooms, Reached, AllSettled, OneApp, Seats, Opened;
    RunKeeps(seats, steps);
    ReachedExtends(seats, steps, step, j);
    OneNodeSteps(seats, s, step, i);
    SettledAt(seats, steps, j, appID, version);
    SettledAt(seats, steps, i, appID, version);
    if step.Deliver? { SettledAt(seats, steps, step.from, appID, version); }
    StepSettles(seats, s, step, i, Reached(seats, steps, i), appID, version);
    var after := Next(seats, s, step);
    SystemGrows(s, i, after[i]);
    if j != i {
      RoomsGrow(seats[j], s[j], Reached(seats, steps, j), Rooms(s), Rooms(after), appID, version);
      assert Reached(seats, steps + [step], j) == Reached(seats, steps, j);
    }
  }

  lemma NextSettles(seats: seq<string>, steps: seq<Step>, step: Step, appID: string, version: string)
    requires Distinct(seats) && |seats| == 2 && OneApp([step], appID, version)
    requires AllSettled(seats, steps, appID, version)
    ensures AllSettled(seats, steps + [step], appID, version)
  {
    var s := Run(seats, steps);
    RunExtends(seats, steps, step);
    hide Run, Settled, Reached;
    forall j | 0 <= j < 2
      ensures Settled(seats[j], Run(seats, steps + [step])[j], Reached(seats, steps + [step], j),
                      Rooms(Run(seats, steps + [step])), appID, version)
    {
      if Enabled(seats, s, step) {
        NextSettlesEach(seats, steps, step, j, appID, version);
      } else {
        ReachedExtends(seats, steps, step, j);
        assert Reached(seats, steps + [step], j) == Reached(seats, steps, j);
      }
    }
  }

  lemma OneNodeSteps(seats: seq<string>, s: System, step: Step, i: nat)
    requires |s| == |seats| && AllKeyed(s) && Enabled(seats, s, step)
    requires i == NodeOf(step)
    ensures Next(seats, s, step) == s[i := Next(seats, s, step)[i]]
  {
    hide Served, Heard;
  }

  lemma {:induction false} RunSettles(seats: seq<string>, steps: seq<Step>, appID: string, version: string)
    requires Distinct(seats) && |seats| == 2 && OneApp(steps, appID, version)
    ensures AllSettled(seats, steps, appID, version)
  {
    if steps == [] {
      forall i | 0 <= i < |seats|
        ensures Settled(seats[i], Run(seats, [])[i], Reached(seats, [], i), Rooms(Run(seats, [])), appID, version)
      {
        FreshIsSettled(seats[i], Rooms(Run(seats, [])), appID, version);
      }
    } else {
      var n := |steps| - 1;
      RunSettles(seats, steps[..n], appID, version);
      NextSettles(seats, steps[..n], steps[n], appID, version);
      assert steps[..n] + [steps[n]] == steps;
    }
  }

  // ---------------------------------------------------------------------------
  // Everything said has been heard
  // ---------------------------------------------------------------------------

  /** Every event that was published has reached every node. */
  ghost predicate AllHeard(seats: seq<string>, steps: seq<Step>) {
    forall i, j, k | 0 <= i < |seats| && 0 <= j < |seats| && 0 <= k < |Run(seats, steps)[j].outbox| ::
      Run(seats, steps)[j].outbox[k] in Reached(seats, steps, i)
  }

  ghost predicate SaidReady(n: Node) {
    exists e :: e in n.outbox && e.PlayerReady?
  }

  /** The owner's node never rests with both players waiting: hearing of the other one opens the room. */
  lemma OwnerNeverWaits(seat: string, peer: string, n: Node, heard: set<Event>, registered: set<string>,
          rooms: set<Room>, appID: string, version: string)
    requires Settled(seat, n, heard, rooms, appID, version) && NodeOK(seat, n, registered, rooms)
    requires n.remote.Keys <= {peer} && Less(seat, peer)
    requires seat in n.players && Eligible(n.players[seat], appID, version)
    ensures peer !in n.remote
  {
    hide Matched, OutboxInv, Remembers, TakesSeat, StaysReady, Less;
    if peer in n.remote {
      assert Candidates(n, appID, version).Keys == {seat, peer};
      MatchOfTwo(n, seat, peer, appID, version);
      assert false;
    }
  }

  lemma OtherOfTwo(seats: seq<string>, i: nat, id: string)
    requires |seats| == 2 && i < 2 && id in seats && id != seats[i]
    ensures id == seats[1 - i]
  {
  }

  lemma RemoteIsPeer(seats: seq<string>, s: System, i: nat)
    requires Distinct(seats) && |seats| == 2 && Inv(seats, s) && i < 2
    ensures s[i].remote.Keys <= {seats[1 - i]}
  {
    OwnPart(seats, s, i);
    hide OutboxInv, Inv, Rooms, Seats, Distinct;
    forall id | id in s[i].remote ensures id == seats[1 - i] {
      SeatIsListed(seats, s, id);
      OtherOfTwo(seats, i, id);
    }
  }

  /** In every run the smaller one's node never rests with its own player waiting and the other one in its table. */
  lemma OwnerNeverWaitsInRuns(seats: seq<string>, steps: seq<Step>, o: nat, appID: string, version: string)
    requires Distinct(seats) && |seats| == 2 && OneApp(steps, appID, version)
    requires o < 2 && Less(seats[o], seats[1 - o])
    ensures var n := Run(seats, steps)[o];
            !(seats[o] in n.players && n.players[seats[o]].ready && n.players[seats[o]].roomID == ""
                && seats[1 - o] in n.remote)
  {
    var s := Run(seats, steps);
    hide Run, Less, Inv, Reached, Rooms, Seats, Opened;
    RunKeeps(seats, steps);
    RunSettles(seats, steps, appID, version);
    OwnPart(seats, s, o);
    RemoteIsPeer(seats, s, o);
    SettledAt(seats, steps, o, appID, version);
    var n := s[o];
    if seats[o] in n.players && n.players[seats[o]].ready && n.players[seats[o]].roomID == "" {
      assert Eligible(n.players[seats[o]], appID, version);
      OwnerNeverWaits(seats[o], seats[1 - o], n, Reached(seats, steps, o), Seats(s), Rooms(s), appID, version);
    }
  }

  /** Once both players have said they are ready and the smaller one's node has heard the other, a room exists. */
  lemma RoomIsOpened(seats: seq<string>, steps: seq<Step>, o: nat, appID: string, version: string)
    requires Distinct(seats) && |seats| == 2 && OneApp(steps, appID, version)
    requires o < 2 && Less(seats[o], seats[1 - o])
    requires AllHeard(seats, steps) && SaidReady(Run(seats, steps)[0]) && SaidReady(Run(seats, steps)[1])
    ensures Rooms(Run(seats, steps)) != {}
  {
    var s := Run(seats, steps);
    RunKeeps(seats, steps);
    RunSettles(seats, steps, appID, version);
    OwnPart(seats, s, o);
    OwnPart(seats, s, 1 - o);
    RemoteIsPeer(seats, s, o);
    hide Run, Less, Inv, Reached, Rooms, Seats;
    var heard := Reached(seats, steps, o);
    assert Settled(seats[o], s[o], heard, Rooms(s), appID, version);
    if Rooms(s) == {} {
      var mine :| mine in s[o].outbox && mine.PlayerReady?;
      var theirs :| theirs in s[1 - o].outbox && theirs.PlayerReady?;
      assert theirs in heard;
      StillWaiting(seats[o], seats[1 - o], s[o], heard, Seats(s), mine, theirs, appID, version);
      OwnerNeverWaits(seats[o], seats[1 - o], s[o], heard, Seats(s), {}, appID, version);
      assert false;
    }
  }

  lemma StillWaiting(seat: string, peer: string, n: Node, heard: set<Event>, registered: set<string>, mine: Event,
          theirs: Event, appID: string, version: string)
    requires Settled(seat, n, heard, {}, appID, version) && NodeOK(seat, n, registered, {})
    requires mine in n.outbox && mine.PlayerReady? && theirs in heard && theirs.PlayerReady?
        && theirs.player.id == peer != seat
    ensures seat in n.players && Eligible(n.players[seat], appID, version) && peer in n.remote
  {
  }

  lemma SeatTaken(seat: string, n: Node, heard: set<Event>, rooms: set<Room>, room: Room, appID: string,
          version: string)
    requires Settled(seat, n, heard, rooms, appID, version)
    requires RoomAssigned(room) in heard && seat in room.playerIDs
    ensures seat in n.players && n.players[seat].roomID != ""
  {
  }

  /** In a system where everyone agrees, a node with a seated player has exactly the one room. */
  lemma AgreedRoom(s: System, i: nat, id: string, opener: nat, room: Room)
    requires Agreement(s) && (opener, room) in Opened(s) && i < |s|
    requires id in s[i].players && s[i].players[id].roomID != ""
    ensures s[i].rooms == map[room.id := room] && s[i].players[id].roomID == room.id
  {
    hide Opened;
    assert s[i].players[id].roomID in s[i].rooms;
    var entry :| entry in Opened(s) && s[i].rooms == map[entry.1.id := entry.1];
    assert entry == (opener, room);
  }

  lemma SeatedInRoom(seats: seq<string>, steps: seq<Step>, i: nat, opener: nat, room: Room, appID: string,
          version: string)
    requires Distinct(seats) && |seats| == 2 && OneApp(steps, appID, version) && AllHeard(seats, steps) && i < 2
    requires (opener, room) in Opened(Run(seats, steps)) && room in Rooms(Run(seats, steps))
    ensures var n := Run(seats, steps)[i];
            && seats[i] in room.playerIDs && n.rooms == map[room.id := room]
            && seats[i] in n.players && n.players[seats[i]].roomID == room.id
  {
    var s := Run(seats, steps);
    RunKeeps(seats, steps);
    RunSettles(seats, steps, appID, version);
    TwoNodesAgree(seats, steps);
    OpenedIsWellMade(seats, s, opener, room);
    RoomOfTwo(seats, s, i, room);
    assert Settled(seats[i], s[i], Reached(seats, steps, i), Rooms(s), appID, version);
    hide Run, Inv, Reached, WellMade, Agreement, Opened, Settled, Rooms, AllSettled;
    var k: nat :| k < |s[opener].outbox| && s[opener].outbox[k] == RoomAssigned(room);
    SeatTaken(seats[i], s[i], Reached(seats, steps, i), Rooms(s), room, appID, version);
    AgreedRoom(s, i, seats[i], opener, room);
  }

  /** Completeness: both players are in the one room that was opened, and both nodes have it in their tables. */
  lemma BothAreSeated(seats: seq<string>, steps: seq<Step>, appID: string, version: string)
    requires Distinct(seats) && |seats| == 2 && OneApp(steps, appID, version)
    requires AllHeard(seats, steps) && SaidReady(Run(seats, steps)[0]) && SaidReady(Run(seats, steps)[1])
    ensures exists room: Room :: forall i | 0 <= i < 2 ::
      && seats[i] in room.playerIDs
      && Run(seats, steps)[i].rooms == map[room.id := room]
      && seats[i] in Run(seats, steps)[i].players && Run(seats, steps)[i].players[seats[i]].roomID == room.id
  {
    var s := Run(seats, steps);
    LessIsTotal(seats[0], seats[1]);
    hide Run, Less, AllHeard, SaidReady, OneApp, Rooms, Opened;
    RoomIsOpened(seats, steps, if Less(seats[0], seats[1]) then 0 else 1, appID, version);
    var room :| room in Rooms(s);
    var opener := OpenerOf(s, room);
    SeatedInRoom(seats, steps, 0, opener, room, appID, version);
    SeatedInRoom(seats, steps, 1, opener, room, appID, version);
  }
}
