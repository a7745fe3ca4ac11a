/** The room manager of one node (internal/tetrisroom/manager.go): one local seat, the ready players
    heard of from other nodes, and the rooms they are matched into. */
module RoomManager {
  import opened Strings

  const HUMAN := "human"
  const AGENT := "agent"

  datatype Player = Player(
    id: string,
    appID: string,
    version: string,
    ping: int,
    ready: bool,
    roomID: string,
    controlMode: string,
    agentID: string)

  datatype Room = Room(id: string, appID: string, version: string, hostID: string, playerIDs: seq<string>)

  /** A state snapshot of an input's payload; the board is missing when the payload has none
      or one that is not a list of strings. */
  datatype Snapshot = NoBoard | Snapshot(board: seq<string>, score: int, lines: int, level: int, gameOver: bool)

  datatype Input = Input(playerID: string, source: string, action: string, payload: Snapshot)

  datatype PlayerState = PlayerState(source: string, snapshot: Snapshot)

  /** What nodes tell each other. */
  datatype Event =
    | PlayerReady(player: Player)
    | RoomAssigned(room: Room)
    | ControlSwitched(room: Room, playerID: string, fromMode: string, toMode: string, agentID: string)
    | RoomInput(roomID: string, input: Input)

  datatype Error =
    | PlayerExists | LocalSeatOccupied | PlayerNotFound | RoomNotFound | AlreadyInRoom
    | InvalidControlMode | ControlModeMismatch | PlayerNotInRoom | PlayerNotRoomMember | PingRequiredForReady
    | PublishFailed

  datatype Result<T> = Ok(value: T) | Err(error: Error)

  datatype Option<T> = None | Some(value: T)

  /** A node: its manager's tables and counter, and the events it has published. */
  datatype Node = Node(
    players: map<string, Player>,
    remote: map<string, Player>,
    rooms: map<string, Room>,
    states: map<string, map<string, PlayerState>>,
    seqNo: nat,
    outbox: seq<Event>)

  const EMPTY_NODE := Node(map[], map[], map[], map[], 0, [])

  /** Tables are keyed by their players' ids, and there is at most one local player. */
  ghost predicate WellKeyed(n: Node) {
    && (forall id | id in n.players :: n.players[id].id == id)
    && (forall id | id in n.remote :: n.remote[id].id == id)
    && (forall id, other | id in n.players && other in n.players :: id == other)
  }

  // ---------------------------------------------------------------------------
  // Matching
  // ---------------------------------------------------------------------------

  predicate Eligible(p: Player, appID: string, version: string) {
    p.ready && p.roomID == "" && p.appID == appID && p.version == version
  }

  function EligibleIn(players: map<string, Player>, appID: string, version: string): map<string, Player> {
    map id | id in players && Eligible(players[id], appID, version) :: players[id]
  }

  /** The candidates for a match; a local entry hides a remote one with the same id. */
  function Candidates(n: Node, appID: string, version: string): map<string, Player> {
    EligibleIn(n.remote, appID, version) + EligibleIn(n.players, appID, version)
  }

  /** The order candidates are sorted by: ping, then id. */
  predicate Before(p: Player, q: Player) {
    if p.ping == q.ping then Less(p.id, q.id) else p.ping < q.ping
  }

  lemma BeforeIsTotal(p: Player, q: Player)
    ensures Before(p, q) || Before(q, p) || p.id == q.id
    ensures !(Before(p, q) && Before(q, p))
    ensures !Before(p, p)
  {
    LessIsTotal(p.id, q.id);
    LessIsIrreflexive(p.id);
    if Less(p.id, q.id) { LessIsAsymmetric(p.id, q.id); }
  }

  lemma BeforeIsTransitive(p: Player, q: Player, r: Player)
    requires Before(p, q) && Before(q, r)
    ensures Before(p, r)
  {
    if p.ping == q.ping == r.ping {
      LessIsTransitive(p.id, q.id, r.id);
    }
  }

  ghost predicate Keyed(c: map<string, Player>) {
    forall id | id in c :: c[id].id == id
  }

  ghost predicate IsLeast(c: map<string, Player>, id: string) {
    id in c && forall other | other in c && other != id :: Before(c[id], c[other])
  }

  lemma {:induction false} LeastExists(c: map<string, Player>)
    requires Keyed(c) && c != map[]
    ensures exists id :: IsLeast(c, id)
    decreases |c|
  {
    var any :| any in c;
    var rest := c - {any};
    if rest == map[] {
      assert forall other | other in c :: other == any || other in rest;
      assert IsLeast(c, any);
    } else {
      LeastExists(rest);
      var low :| IsLeast(rest, low);
      BeforeIsTotal(c[any], c[low]);
      var id := if Before(c[any], c[low]) then any else low;
      forall other | other in c && other != id ensures Before(c[id], c[other]) {
        assert other == any || other in rest;
        if id == any && other != low { BeforeIsTransitive(c[any], c[low], c[other]); }
      }
      assert IsLeast(c, id);
    }
  }

  lemma LeastIsUnique(c: map<string, Player>, a: string, b: string)
    requires IsLeast(c, a) && IsLeast(c, b)
    ensures a == b
  {
    BeforeIsTotal(c[a], c[b]);
  }

  ghost function Least(c: map<string, Player>): (id: string)
    requires Keyed(c) && c != map[]
    ensures IsLeast(c, id)
  {
    LeastExists(c);
    var id :| IsLeast(c, id);
    id
  }

  /** The two candidates that come first. */
  ghost function BestTwo(c: map<string, Player>): (best: (string, string))
    requires Keyed(c) && |c| >= 2
    ensures best.0 in c && best.1 in c && best.0 != best.1
  {
    var first := Least(c);
    var rest := c - {first};
    assert |rest| == |c| - 1 by { assert rest.Keys == c.Keys - {first}; }
    (first, Least(rest))
  }

  function Smaller(a: string, b: string): string {
    if Less(b, a) then b else a
  }

  function RoomName(n: nat): (name: string)
    ensures name != ""
  {
    "room_" + Decimal(n)
  }

  /** The room this node would open now: the two first candidates, if the one with the smaller id sits here. */
  ghost function Matched(n: Node, appID: string, version: string): (room: Option<Room>)
    requires WellKeyed(n)
  {
    var c := Candidates(n, appID, version);
    if |c| < 2 then None
    else
      var (host, guest) := BestTwo(c);
      if Smaller(host, guest) in n.players
      then Some(Room(RoomName(n.seqNo + 1), appID, version, host, [host, guest]))
      else None
  }

  function Seated(p: Player, roomID: string): Player {
    p.(roomID := roomID, ready := false, controlMode := HUMAN, agentID := "")
  }

  /** tryMatchLocked. A member that is local takes its seat at once. */
  ghost function TryMatch(n: Node, appID: string, version: string): (after: Node)
    requires WellKeyed(n)
    ensures WellKeyed(after)
  {
    match Matched(n, appID, version)
    case None => n
    case Some(room) =>
      Node(
        (map id | id in n.players ::
          if id in room.playerIDs && Eligible(n.players[id], appID, version)
          then Seated(n.players[id], room.id) else n.players[id]),
        n.remote - (set id | id in room.playerIDs),
        n.rooms[room.id := room],
        n.states,
        n.seqNo + 1,
        n.outbox + [RoomAssigned(room)])
  }

  /** The room that is opened has two different candidates as members; the smaller-id one sits on this node. */
  lemma MatchedRoom(n: Node, appID: string, version: string)
    requires WellKeyed(n)
    ensures Matched(n, appID, version).Some? ==>
            var c := Candidates(n, appID, version);
            var room := Matched(n, appID, version).value;
            && |room.playerIDs| == 2 && room.playerIDs[0] != room.playerIDs[1]
            && room.playerIDs[0] in c && room.playerIDs[1] in c
            && room.hostID == room.playerIDs[0]
            && room.id == RoomName(n.seqNo + 1) && room.appID == appID && room.version == version
            && Smaller(room.playerIDs[0], room.playerIDs[1]) in n.players
  {
    hide Candidates, Smaller, RoomName, Least;
  }

  /** Who is a candidate: a local player that is ready and unassigned under this app and version, or a remote one
      whose id no such local player has. */
  lemma CandidatesAre(n: Node, appID: string, version: string, id: string)
    ensures var c := Candidates(n, appID, version);
            if id in n.players && n.players[id].ready && n.players[id].roomID == ""
               && n.players[id].appID == appID && n.players[id].version == version
            then id in c && c[id] == n.players[id]
            else if id in n.remote && n.remote[id].ready && n.remote[id].roomID == ""
                    && n.remote[id].appID == appID && n.remote[id].version == version
            then id in c && c[id] == n.remote[id]
            else id !in c
  {
  }

  /** The host has the least ping of all candidates, the second member of all the others; of equal pings the smaller id
      counts. The room is opened on the node where the member with the smaller id sits. */
  lemma LeastPingsMeet(n: Node, appID: string, version: string)
    requires WellKeyed(n)
    ensures Matched(n, appID, version).Some? ==>
            var c := Candidates(n, appID, version);
            var room := Matched(n, appID, version).value;
            && |room.playerIDs| == 2
            && var (host, guest) := (room.playerIDs[0], room.playerIDs[1]);
               && room.hostID == host != guest && host in c && guest in c
               && (forall id | id in c && id != host ::
                     c[host].ping < c[id].ping || (c[host].ping == c[id].ping && Less(host, id)))
               && (forall id | id in c && id != host && id != guest ::
                     c[guest].ping < c[id].ping || (c[guest].ping == c[id].ping && Less(guest, id)))
               && (Less(host, guest) ==> host in n.players) && (Less(guest, host) ==> guest in n.players)
  {
    hide Matched, Candidates, Less;
    MatchedRoom(n, appID, version);
    MatchPicksTheLeast(n, appID, version);
    KeyedCandidates(n, appID, version);
    if Matched(n, appID, version).Some? {
      var c := Candidates(n, appID, version);
      var room := Matched(n, appID, version).value;
      LessIsTotal(room.playerIDs[0], room.playerIDs[1]);
      if Less(room.playerIDs[0], room.playerIDs[1]) { LessIsAsymmetric(room.playerIDs[0], room.playerIDs[1]); }
    }
  }

  /** The members are the two least candidates under (ping, id) and the host is the least of all. */
  lemma MatchPicksTheLeast(n: Node, appID: string, version: string)
    requires WellKeyed(n)
    ensures Matched(n, appID, version).Some? ==>
            var c := Candidates(n, appID, version);
            var room := Matched(n, appID, version).value;
            && |room.playerIDs| == 2 && IsLeast(c, room.hostID) && IsLeast(c - {room.hostID}, room.playerIDs[1])
            && (forall id | id in c && id !in room.playerIDs ::
                  Before(c[room.hostID], c[id]) && Before(c[room.playerIDs[1]], c[id]))
  {
    hide Candidates, Smaller, RoomName;
    if Matched(n, appID, version).Some? {
      var c := Candidates(n, appID, version);
      var room := Matched(n, appID, version).value;
      var rest := c - {room.hostID};
      assert IsLeast(rest, room.playerIDs[1]);
      forall id | id in c && id !in room.playerIDs ensures Before(c[room.playerIDs[1]], c[id]) {
        assert id in rest;
      }
    }
  }

  /** The first two candidates in the order they are sorted by. */
  ghost predicate FirstTwo(c: map<string, Player>, a: string, b: string) {
    IsLeast(c, a) && IsLeast(c - {a}, b)
  }

  /** a and b have the two least pings, a the least; of equal pings the smaller id counts. */
  ghost predicate LeastPings(c: map<string, Player>, a: string, b: string) {
    && a in c && b in c && a != b
    && (forall id | id in c && id != a :: c[a].ping < c[id].ping || (c[a].ping == c[id].ping && Less(a, id)))
    && (forall id | id in c && id != a && id != b :: c[b].ping < c[id].ping || (c[b].ping == c[id].ping && Less(b, id)))
  }

  lemma LeastPingsComeFirst(c: map<string, Player>, a: string, b: string)
    requires Keyed(c)
    ensures LeastPings(c, a, b) <==> FirstTwo(c, a, b)
  {
    hide Less;
    if FirstTwo(c, a, b) {
      forall id | id in c && id != a && id != b
        ensures c[b].ping < c[id].ping || (c[b].ping == c[id].ping && Less(b, id))
      {
        assert id in c - {a};
      }
    }
  }

  /** A room is opened exactly when two candidates have the least pings and the one with the smaller id sits here. */
  lemma MatchOpensWhen(n: Node, appID: string, version: string)
    requires WellKeyed(n)
    ensures Matched(n, appID, version).Some?
            <==> exists a, b :: LeastPings(Candidates(n, appID, version), a, b)
                                && (Less(a, b) ==> a in n.players) && (Less(b, a) ==> b in n.players)
  {
    hide Candidates, RoomName, IsLeast, Less;
    var c := Candidates(n, appID, version);
    KeyedCandidates(n, appID, version);
    forall a, b ensures LeastPings(c, a, b) <==> FirstTwo(c, a, b) {
      LeastPingsComeFirst(c, a, b);
    }
    hide LeastPings;
    if |c| >= 2 {
      var (a, b) := BestTwo(c);
      assert FirstTwo(c, a, b);
      SmallerIs(a, b);
    }
    forall a, b | FirstTwo(c, a, b) ensures |c| >= 2 && BestTwo(c) == (a, b) {
      FirstTwoAreTheBest(c, a, b);
    }
  }

  lemma SmallerIs(a: string, b: string)
    requires a != b
    ensures if Less(a, b) then !Less(b, a) && Smaller(a, b) == a else Less(b, a) && Smaller(a, b) == b
  {
    LessIsTotal(a, b);
    if Less(a, b) { LessIsAsymmetric(a, b); }
  }

  lemma KeyedCandidates(n: Node, appID: string, version: string)
    requires WellKeyed(n)
    ensures Keyed(Candidates(n, appID, version))
  {
  }

  lemma FirstTwoAreTheBest(c: map<string, Player>, a: string, b: string)
    requires Keyed(c) && FirstTwo(c, a, b)
    ensures |c| >= 2 && BestTwo(c) == (a, b)
  {
    var rest := c - {a};
    assert rest.Keys == c.Keys - {a} && b in rest;
    assert |rest| > 0;
    LeastIsUnique(c, a, Least(c));
    LeastIsUnique(rest, b, Least(rest));
  }

  /** What opening a room does: it is stored, announced and counted; members that wait here under this app and version
      take their seats under human control and are no longer ready, all else about them stays; both members leave the
      remote table. Without a room nothing changes. */
  lemma MatchSeats(n: Node, appID: string, version: string)
    requires WellKeyed(n)
    ensures var after := TryMatch(n, appID, version);
            match Matched(n, appID, version)
            case None => after == n
            case Some(room) =>
              && after.rooms == n.rooms[room.id := room] && after.outbox == n.outbox + [RoomAssigned(room)]
              && room.id == "room_" + Decimal(n.seqNo + 1) && after.seqNo == n.seqNo + 1 && after.states == n.states
              && (forall id :: id in after.remote <==> id in n.remote && id !in room.playerIDs)
              && (forall id | id in after.remote :: after.remote[id] == n.remote[id])
              && after.players.Keys == n.players.Keys
              && (forall id | id in n.players ::
                    var p, q := n.players[id], after.players[id];
                    if id in room.playerIDs && p.ready && p.roomID == "" && p.appID == appID && p.version == version
                    then q.roomID == room.id && !q.ready && q.controlMode == "human" && q.agentID == ""
                         && (q.id, q.appID, q.version, q.ping) == (p.id, p.appID, p.version, p.ping)
                    else q == p)
  {
    hide Matched, Candidates, Smaller, Decimal, WellKeyed;
    MatchedRoom(n, appID, version);
    MatchTables(n, appID, version);
  }

  lemma MatchTables(n: Node, appID: string, version: string)
    requires WellKeyed(n)
    ensures var after := TryMatch(n, appID, version);
            match Matched(n, appID, version)
            case None => after == n
            case Some(room) =>
              && after.remote == n.remote - (set id | id in room.playerIDs) && after.players.Keys == n.players.Keys
              && (forall id | id in n.players ::
                    after.players[id] == if id in room.playerIDs && Eligible(n.players[id], appID, version)
                                         then Seated(n.players[id], room.id) else n.players[id])
  {
    hide Matched, Eligible, Seated;
  }

  ghost predicate Apart(n: Node) {
    n.players.Keys !! n.remote.Keys
  }

  lemma OwnerIsEligible(n: Node, appID: string, version: string)
    requires WellKeyed(n) && Apart(n) && Matched(n, appID, version).Some?
    ensures var room := Matched(n, appID, version).value;
            |room.playerIDs| == 2
            && var owner := Smaller(room.playerIDs[0], room.playerIDs[1]);
               owner in n.players && Eligible(n.players[owner], appID, version)
  {
    MatchedRoom(n, appID, version);
    hide Matched;
  }

  /** A match seats the local player and takes the other member off the remote table. */
  lemma MatchSeatsOwner(n: Node, appID: string, version: string)
    requires WellKeyed(n) && Apart(n)
    ensures var once := TryMatch(n, appID, version);
            && Apart(once)
            && (Matched(n, appID, version).Some? ==> forall id | id in once.players :: once.players[id].roomID != "")
  {
    if Matched(n, appID, version).Some? {
      OwnerIsEligible(n, appID, version);
      hide Matched, Eligible;
    }
  }

  /** Matching again at once changes nothing, as long as no id is both local and remote. */
  lemma MatchIsIdempotent(n: Node, appID: string, version: string)
    requires WellKeyed(n) && Apart(n)
    ensures var once := TryMatch(n, appID, version);
            Matched(once, appID, version) == None && TryMatch(once, appID, version) == once
  {
    var once := TryMatch(n, appID, version);
    MatchSeatsOwner(n, appID, version);
    if Matched(n, appID, version).Some? && Matched(once, appID, version).Some? {
      OwnerIsEligible(once, appID, version);
      assert false;
    }
  }

  // ---------------------------------------------------------------------------
  // Calls
  // ---------------------------------------------------------------------------

  function Registered(n: Node, id: string, appID: string, version: string): (Node, Result<Player>) {
    if id in n.players then (n, Err(PlayerExists))
    else if n.players != map[] then (n, Err(LocalSeatOccupied))
    else
      var p := Player(id, appID, version, 0, false, "", HUMAN, "");
      (n.(players := n.players[id := p]), Ok(p))
  }

  function Upserted(n: Node, id: string, appID: string, version: string): (Node, Result<Player>) {
    if id !in n.players && n.players != map[] then (n, Err(LocalSeatOccupied))
    else
      var was := if id in n.players then n.players[id] else Player(id, "", "", 0, false, "", HUMAN, "");
      if was.roomID != "" && ((appID != "" && appID != was.appID) || (version != "" && version != was.version))
      then (n, Err(AlreadyInRoom))
      else
        var p := was.(
          appID := if appID != "" then appID else was.appID,
          version := if version != "" then version else was.version,
          controlMode := if was.controlMode == "" then HUMAN else was.controlMode);
        (n.(players := n.players[id := p]), Ok(p))
  }

  /** The player is marked ready and says so to every node. */
  function MarkedReady(n: Node, id: string, ping: int): Node
    requires id in n.players
  {
    var p := n.players[id].(ready := true, ping := ping);
    n.(players := n.players[id := p], outbox := n.outbox + [PlayerReady(p)])
  }

  function ReadyError(n: Node, id: string, ping: int): Option<Error> {
    if ping < 0 then Some(PingRequiredForReady)
    else if id !in n.players then Some(PlayerNotFound)
    else if n.players[id].roomID != "" then Some(AlreadyInRoom)
    else None
  }

  /** SetReady: the room is the one opened by the match that follows, if any. */
  ghost function SetReady(n: Node, id: string, ping: int): (after: (Node, Result<Option<Room>>))
    requires WellKeyed(n)
    ensures WellKeyed(after.0)
  {
    match ReadyError(n, id, ping)
    case Some(error) => (n, Err(error))
    case None =>
      var marked := MarkedReady(n, id, ping);
      var p := n.players[id];
      (TryMatch(marked, p.appID, p.version), Ok(Matched(marked, p.appID, p.version)))
  }

  function ControlError(n: Node, roomID: string, playerID: string): Option<Error> {
    if roomID !in n.rooms then Some(RoomNotFound)
    else if playerID !in n.rooms[roomID].playerIDs then Some(PlayerNotRoomMember)
    else if playerID !in n.players then Some(PlayerNotFound)
    else if n.players[playerID].roomID != roomID then Some(PlayerNotInRoom)
    else None
  }

  function ControlToggled(n: Node, roomID: string, playerID: string, toMode: string, agentID: string)
    : (Node, Result<Player>)
  {
    if toMode != HUMAN && toMode != AGENT then (n, Err(InvalidControlMode))
    else
      match ControlError(n, roomID, playerID)
      case Some(error) => (n, Err(error))
      case None =>
        var was := n.players[playerID];
        var p := was.(controlMode := toMode, agentID := if toMode == AGENT then agentID else "");
        (n.(players := n.players[playerID := p],
            outbox := n.outbox + [ControlSwitched(n.rooms[roomID], playerID, was.controlMode, toMode, p.agentID)]),
         Ok(p))
  }

  /** upsertRoomState */
  function StateStored(n: Node, roomID: string, input: Input): Node {
    if roomID !in n.rooms || input.payload.NoBoard? then n
    else
      var states := if roomID in n.states then n.states[roomID] else map[];
      n.(states := n.states[roomID := states[input.playerID := PlayerState(input.source, input.payload)]])
  }

  /** Why SubmitInput turns an input down, if it does. */
  function InputError(n: Node, roomID: string, input: Input): Option<Error> {
    match ControlError(n, roomID, input.playerID)
    case Some(error) => Some(error)
    case None =>
      var mode := n.players[input.playerID].controlMode;
      if (mode == HUMAN && input.source != HUMAN) || (mode == AGENT && input.source != AGENT)
      then Some(ControlModeMismatch) else None
  }

  /** The rest of SubmitInput: the snapshot is stored, and the input published if that goes through. */
  function InputPosted(n: Node, roomID: string, input: Input, published: bool): Node {
    var stored := if input.action == "state_sync" then StateStored(n, roomID, input) else n;
    if published then stored.(outbox := stored.outbox + [RoomInput(roomID, input)]) else stored
  }

  // ---------------------------------------------------------------------------
  // Events heard
  // ---------------------------------------------------------------------------

  /** consumePlayerEvents, before the match that follows every event. */
  function PlayerHeard(n: Node, p: Player): Node {
    if p.id in n.players then
      var local := n.players[p.id];
      if local.roomID == "" then
        n.(players := n.players[p.id :=
             local.(ready := p.ready, ping := p.ping, appID := p.appID, version := p.version)])
      else n
    else if p.roomID == "" && p.ready then n.(remote := n.remote[p.id := p])
    else n.(remote := n.remote - {p.id})
  }

  /** consumeRoomEvents on a room_assigned event. */
  function AssignmentHeard(n: Node, room: Room): Node {
    n.(rooms := n.rooms[room.id := room],
       remote := n.remote - (set id | id in room.playerIDs),
       players := (map id | id in n.players ::
         if id in room.playerIDs then Seated(n.players[id], room.id) else n.players[id]),
       states := if room.id in n.states then n.states else n.states[room.id := map[]])
  }

  /** A player_ready event refreshes an unassigned local player, or enters or removes the remote one it is about. */
  lemma PlayerHeardLaw(n: Node, p: Player)
    ensures var after := PlayerHeard(n, p);
            && (after.rooms, after.states, after.seqNo, after.outbox) == (n.rooms, n.states, n.seqNo, n.outbox)
            && (forall id | id != p.id :: id in after.players <==> id in n.players)
            && (forall id | id != p.id && id in n.players :: after.players[id] == n.players[id])
            && (forall id | id != p.id :: id in after.remote <==> id in n.remote)
            && (forall id | id != p.id && id in n.remote :: after.remote[id] == n.remote[id])
            && (p.id in after.players <==> p.id in n.players)
            && if p.id in n.players then
                 && after.remote == n.remote
                 && var was, now := n.players[p.id], after.players[p.id];
                    && (was.roomID != "" ==> now == was)
                    && (was.roomID == "" ==> (now.ready, now.ping, now.appID, now.version)
                                             == (p.ready, p.ping, p.appID, p.version))
                    && (now.id, now.roomID, now.controlMode, now.agentID)
                       == (was.id, was.roomID, was.controlMode, was.agentID)
               else (p.id in after.remote <==> p.ready && p.roomID == "")
                    && (p.id in after.remote ==> after.remote[p.id] == p)
  {
  }

  /** A room_assigned event stores the room, seats its members that are here, whatever they were doing, and takes all
      members off the remote table. */
  lemma AssignmentHeardLaw(n: Node, room: Room)
    ensures var after := AssignmentHeard(n, room);
            && after.rooms == n.rooms[room.id := room] && after.outbox == n.outbox && after.seqNo == n.seqNo
            && (forall id :: id in after.remote <==> id in n.remote && id !in room.playerIDs)
            && (forall id | id in after.remote :: after.remote[id] == n.remote[id])
            && after.players.Keys == n.players.Keys
            && (forall id | id in n.players ::
                  var p, q := n.players[id], after.players[id];
                  if id in room.playerIDs
                  then q.roomID == room.id && !q.ready && q.controlMode == "human" && q.agentID == ""
                       && (q.id, q.appID, q.version, q.ping) == (p.id, p.appID, p.version, p.ping)
                  else q == p)
            && room.id in after.states
            && (forall id | id in after.states :: after.states[id] == if id in n.states then n.states[id] else map[])
            && (forall id | id in n.states :: id in after.states)
  {
  }

  /** What a node does with an event that reaches it. */
  ghost function Heard(n: Node, e: Event): (after: Node)
    requires WellKeyed(n)
    ensures WellKeyed(after)
  {
    match e
    case PlayerReady(p) => TryMatch(PlayerHeard(n, p), p.appID, p.version)
    case RoomAssigned(room) => AssignmentHeard(n, room)
    case ControlSwitched(_, _, _, _, _) => n
    case RoomInput(roomID, input) =>
      if roomID != "" && input.action == "state_sync" then StateStored(n, roomID, input) else n
  }

  /** Of the other events only a synced snapshot for a named room does anything: it is stored. */
  lemma InputHeardLaw(n: Node, e: Event)
    requires WellKeyed(n) && (e.RoomInput? || e.ControlSwitched?)
    ensures Heard(n, e) == n.(states := Heard(n, e).states)
    ensures if e.RoomInput? && e.roomID != "" && e.input.action == "state_sync"
               && e.roomID in n.rooms && e.input.payload.Snapshot?
            then e.roomID in Heard(n, e).states
                 && Heard(n, e).states[e.roomID]
                    == (if e.roomID in n.states then n.states[e.roomID] else map[])
                       [e.input.playerID := PlayerState(e.input.source, e.input.payload)]
                 && (forall id | id != e.roomID :: id in Heard(n, e).states <==> id in n.states)
                 && (forall id | id != e.roomID && id in n.states :: Heard(n, e).states[id] == n.states[id])
            else Heard(n, e) == n
  {
  }
}
