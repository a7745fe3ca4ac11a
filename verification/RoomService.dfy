/** The Manager of internal/tetrisroom/manager.go as it runs: its maps and counter are fields, its
    functions the methods, the events it publishes are appended to an outbox. Each method is proved to do
    to the node what module RoomManager says. */
module RoomService {
  import opened Strings
  import opened RoomManager

  /** A candidate for a match, and whether it is the local player. */
  datatype Candidate = Candidate(p: Player, local: bool)

  predicate Sorted(cs: seq<Candidate>) {
    forall i, j | 0 <= i < j < |cs| :: Before(cs[i].p, cs[j].p)
  }

  /** Inserts a candidate into a sorted list. */
  method Insert(cs: seq<Candidate>, c: Candidate) returns (out: seq<Candidate>)
    requires Sorted(cs) && forall d | d in cs :: d.p.id != c.p.id
    ensures Sorted(out) && |out| == |cs| + 1
    ensures forall d :: d in out <==> d in cs || d == c
  {
    var i := 0;
    while i < |cs| && Before(cs[i].p, c.p)
      invariant 0 <= i <= |cs|
      invariant forall j | 0 <= j < i :: Before(cs[j].p, c.p)
    {
      i := i + 1;
    }
    out := cs[..i] + [c] + cs[i..];
    if i < |cs| { BeforeIsTotal(cs[i].p, c.p); }
    forall j | i < j < |cs| ensures Before(c.p, cs[j].p) {
      BeforeIsTransitive(c.p, cs[i].p, cs[j].p);
    }
    forall d ensures d in out <==> d in cs || d == c {
      assert cs == cs[..i] + cs[i..];
    }
  }

  /** The first two of a sorted list are the two least candidates. */
  lemma FirstTwoAreBest(c: map<string, Player>, sorted: seq<Candidate>)
    requires Keyed(c) && |c| >= 2 && |sorted| == |c| && Sorted(sorted)
    requires forall d | d in sorted :: d.p.id in c && c[d.p.id] == d.p
    requires forall id | id in c :: exists d :: d in sorted && d.p.id == id
    ensures BestTwo(c) == (sorted[0].p.id, sorted[1].p.id)
  {
    var a, b := sorted[0].p.id, sorted[1].p.id;
    assert sorted[0] in sorted && sorted[1] in sorted;
    forall other | other in c && other != a ensures Before(c[a], c[other]) {
      var d :| d in sorted && d.p.id == other;
    }
    LeastIsUnique(c, a, Least(c));
    var rest := c - {a};
    BeforeIsTotal(c[a], c[b]);
    forall other | other in rest && other != b ensures Before(rest[b], rest[other]) {
      var d :| d in sorted && d.p.id == other;
    }
    assert IsLeast(rest, b);
    LeastIsUnique(rest, b, Least(rest));
  }

  class Manager {
    var players: map<string, Player>
    var remote: map<string, Player>
    var rooms: map<string, Room>
    var states: map<string, map<string, PlayerState>>
    var seqNo: nat
    var outbox: seq<Event>

    ghost function State(): Node
      reads this
    {
      Node(players, remote, rooms, states, seqNo, outbox)
    }

    constructor ()
      ensures State() == EMPTY_NODE
    {
      players, remote, rooms, states, seqNo, outbox := map[], map[], map[], map[], 0, [];
    }

    method RegisterPlayer(id: string, appID: string, version: string) returns (r: Result<Player>)
      modifies this`players
      ensures (State(), r) == Registered(old(State()), id, appID, version)
      ensures if old(players) == map[] then r == Ok(Player(id, appID, version, 0, false, "", "human", ""))
              else r == Err(if id in old(players) then PlayerExists else LocalSeatOccupied)
      ensures players == if r.Ok? then map[id := r.value] else old(players)
    {
      if id in players { return Err(PlayerExists); }
      if |players| > 0 { return Err(LocalSeatOccupied); }
      var p := Player(id, appID, version, 0, false, "", HUMAN, "");
      players := players[id := p];
      return Ok(p);
    }

    method UpsertPlayer(id: string, appID: string, version: string) returns (r: Result<Player>)
      modifies this`players
      ensures (State(), r) == Upserted(old(State()), id, appID, version)
      ensures r == Err(LocalSeatOccupied) <==> id !in old(players) && old(players) != map[]
      ensures r == Err(AlreadyInRoom) <==>
                && id in old(players) && old(players)[id].roomID != ""
                && (appID !in ["", old(players)[id].appID] || version !in ["", old(players)[id].version])
      ensures r.Ok? ==> r.value.appID == (if appID != "" || id !in old(players) then appID else old(players)[id].appID)
      ensures r.Ok? ==>
                r.value.version == (if version != "" || id !in old(players) then version else old(players)[id].version)
      ensures r.Ok? && id in old(players) && old(players)[id].controlMode != "" ==>
                r.value == old(players)[id].(appID := r.value.appID, version := r.value.version)
      ensures r.Ok? && id !in old(players) ==>
                (r.value.id, r.value.ready, r.value.roomID, r.value.controlMode) == (id, false, "", "human")
      ensures players == if r.Ok? then old(players)[id := r.value] else old(players)
    {
      var p: Player;
      if id !in players {
        if |players| > 0 { return Err(LocalSeatOccupied); }
        p := Player(id, "", "", 0, false, "", HUMAN, "");
      } else {
        p := players[id];
      }
      if p.roomID != "" && ((appID != "" && appID != p.appID) || (version != "" && version != p.version)) {
        return Err(AlreadyInRoom);
      }
      if appID != "" { p := p.(appID := appID); }
      if version != "" { p := p.(version := version); }
      if p.controlMode == "" { p := p.(controlMode := HUMAN); }
      players := players[id := p];
      return Ok(p);
    }

    method SetReady(playerID: string, pingMS: int) returns (r: Result<Option<Room>>)
      requires WellKeyed(State())
      modifies this
      ensures (State(), r) == RoomManager.SetReady(old(State()), playerID, pingMS)
      ensures r.Ok? <==> pingMS >= 0 && playerID in old(players) && old(players)[playerID].roomID == ""
      ensures r.Err? ==>
                && State() == old(State())
                && r.error == (if pingMS < 0 then PingRequiredForReady
                               else if playerID !in old(players) then PlayerNotFound else AlreadyInRoom)
      ensures r.Ok? ==> old(outbox) + [PlayerReady(old(players)[playerID].(ready := true, ping := pingMS))] <= outbox
      ensures r == Ok(None) ==> players == old(players)[playerID := old(players)[playerID].(ready := true,
          ping := pingMS)]
    {
      if pingMS < 0 { return Err(PingRequiredForReady); }
      if playerID !in players { return Err(PlayerNotFound); }
      var p := players[playerID];
      if p.roomID != "" { return Err(AlreadyInRoom); }
      p := p.(ready := true, ping := pingMS);
      players := players[playerID := p];
      outbox := outbox + [PlayerReady(p)];
      var room := TryMatchLocked(p.appID, p.version);
      return Ok(room);
    }

    /** The candidates by id: the local player first, then remote ones with other ids. The maps are
        walked in whatever order. */
    method CollectCandidates(appID: string, version: string) returns (byID: map<string, Candidate>)
      requires WellKeyed(State())
      ensures byID.Keys == Candidates(State(), appID, version).Keys
      ensures forall id | id in byID ::
        && byID[id].p == Candidates(State(), appID, version)[id]
        && (byID[id].local <==> id in players && Eligible(players[id], appID, version))
    {
      byID := map[];
      var todo := players.Keys;
      while todo != {}
        invariant todo <= players.Keys
        invariant byID.Keys == (set id | id in players && id !in todo && Eligible(players[id], appID, version))
        invariant forall id | id in byID :: byID[id] == Candidate(players[id], true)
        decreases todo
      {
        var id :| id in todo;
        todo := todo - {id};
        if Eligible(players[id], appID, version) {
          byID := byID[players[id].id := Candidate(players[id], true)];
        }
      }
      ghost var local := byID;
      todo := remote.Keys;
      while todo != {}
        invariant todo <= remote.Keys
        invariant byID.Keys
                  == local.Keys + (set id | id in remote && id !in todo && Eligible(remote[id], appID, version))
        invariant forall id | id in byID ::
          byID[id] == if id in local then local[id] else Candidate(remote[id], false)
        decreases todo
      {
        var id :| id in todo;
        todo := todo - {id};
        if Eligible(remote[id], appID, version) {
          if remote[id].id !in byID {
            byID := byID[remote[id].id := Candidate(remote[id], false)];
          }
        }
      }
    }

    /** The candidates in order of (ping, id), built by walking the map in whatever order. */
    method SortCandidates(byID: map<string, Candidate>) returns (sorted: seq<Candidate>)
      requires forall id | id in byID :: byID[id].p.id == id
      ensures Sorted(sorted) && |sorted| == |byID|
      ensures forall c :: c in sorted <==> c.p.id in byID && byID[c.p.id] == c
    {
      sorted := [];
      var todo := byID.Keys;
      while todo != {}
        invariant todo <= byID.Keys && |sorted| == |byID| - |todo|
        invariant Sorted(sorted)
        invariant forall c :: c in sorted <==> c.p.id in byID && c.p.id !in todo && byID[c.p.id] == c
        decreases todo
      {
        var id :| id in todo;
        todo := todo - {id};
        sorted := Insert(sorted, byID[id]);
      }
    }

    /** The two first candidates, if there are two. */
    method FirstTwo(appID: string, version: string) returns (members: seq<Candidate>)
      requires WellKeyed(State())
      ensures var c := Candidates(State(), appID, version);
              if |c| < 2 then members == []
              else |members| == 2 && (members[0].p.id, members[1].p.id) == BestTwo(c)
      ensures forall m | m in members :: m.local <==> m.p.id in players && Eligible(players[m.p.id], appID, version)
    {
      var byID := CollectCandidates(appID, version);
      ghost var c := Candidates(State(), appID, version);
      assert |byID| == |byID.Keys| == |c|;
      if |byID| < 2 { return []; }
      var sorted := SortCandidates(byID);
      forall id | id in c ensures exists d :: d in sorted && d.p.id == id {
        assert byID[id] in sorted;
      }
      hide Candidates, Eligible;
      FirstTwoAreBest(c, sorted);
      members := sorted[..2];
      assert forall m | m in members :: m in sorted;
    }

    method TryMatchLocked(appID: string, version: string) returns (room: Option<Room>)
      requires WellKeyed(State())
      modifies this
      ensures State() == TryMatch(old(State()), appID, version)
      ensures room == Matched(old(State()), appID, version)
    {
      hide Candidates, Eligible, Least, IsLeast, RoomName, Less;
      var members := FirstTwo(appID, version);
      if |members| < 2 { return None; }
      var host, guest := members[0], members[1];
      assert host in members && guest in members;
      var owner := host.p.id;
      if Less(guest.p.id, owner) { owner := guest.p.id; }
      if owner !in players { return None; }
      seqNo := seqNo + 1;
      var opening := Room(RoomName(seqNo), appID, version, host.p.id, [host.p.id, guest.p.id]);
      rooms := rooms[opening.id := opening];
      SeatMembers(members, opening);
      outbox := outbox + [RoomAssigned(opening)];
      room := Some(opening);
      assert Some(opening) == Matched(old(State()), appID, version);
      assert players == (map id | id in old(players) ::
          if id in opening.playerIDs && Eligible(old(players)[id], appID, version)
          then Seated(old(players)[id], opening.id) else old(players)[id]);
    }

    /** Local members take their seats; both members leave the remote table. */
    method SeatMembers(members: seq<Candidate>, room: Room)
      requires |members| == 2 && room.playerIDs == [members[0].p.id, members[1].p.id]
      requires members[0].p.id != members[1].p.id
      requires forall m | m in members :: m.local ==> m.p.id in players
      modifies this`players, this`remote
      ensures players == map id | id in old(players) ::
        if exists m :: m in members && m.p.id == id && m.local
        then Seated(old(players)[id], room.id) else old(players)[id]
      ensures remote == old(remote) - (set id | id in room.playerIDs)
    {
      for i := 0 to |members|
        invariant players == map id | id in old(players) ::
          if exists m :: m in members[..i] && m.p.id == id && m.local
          then Seated(old(players)[id], room.id) else old(players)[id]
        invariant remote == old(remote) - (set id | id in room.playerIDs[..i])
      {
        var member := members[i];
        assert members[..i + 1] == members[..i] + [member] && member in members;
        assert room.playerIDs[..i + 1] == room.playerIDs[..i] + [member.p.id];
        if member.local {
          players := players[member.p.id := Seated(players[member.p.id], room.id)];
        }
        remote := remote - {member.p.id};
      }
      assert members[..|members|] == members && room.playerIDs[..|members|] == room.playerIDs;
    }

    method ToggleControl(roomID: string, playerID: string, toMode: string, agentID: string) returns (r: Result<Player>)
      modifies this`players, this`outbox
      ensures (State(), r) == ControlToggled(old(State()), roomID, playerID, toMode, agentID)
      ensures r.Ok? <==>
                && toMode in ["human", "agent"] && roomID in rooms && playerID in rooms[roomID].playerIDs
                && playerID in old(players) && old(players)[playerID].roomID == roomID
      ensures r.Ok? ==> r.value == old(players)[playerID].(controlMode := toMode,
                                                           agentID := if toMode == "agent" then agentID else "")
      ensures players == if r.Ok? then old(players)[playerID := r.value] else old(players)
    {
      if toMode != HUMAN && toMode != AGENT { return Err(InvalidControlMode); }
      if roomID !in rooms { return Err(RoomNotFound); }
      var room := rooms[roomID];
      if playerID !in room.playerIDs { return Err(PlayerNotRoomMember); }
      if playerID !in players { return Err(PlayerNotFound); }
      var p := players[playerID];
      if p.roomID != roomID { return Err(PlayerNotInRoom); }
      var fromMode := p.controlMode;
      p := p.(controlMode := toMode);
      if toMode == AGENT { p := p.(agentID := agentID); } else { p := p.(agentID := ""); }
      players := players[playerID := p];
      outbox := outbox + [ControlSwitched(room, playerID, fromMode, toMode, p.agentID)];
      return Ok(p);
    }

    method UpsertRoomState(roomID: string, input: Input)
      modifies this`states
      ensures State() == StateStored(old(State()), roomID, input)
      ensures if roomID in rooms && input.payload.Snapshot?
              then states == old(states)[roomID :=
                     (if roomID in old(states) then old(states)[roomID] else map[])
                     [input.playerID := PlayerState(input.source, input.payload)]]
              else states == old(states)
    {
      if roomID !in rooms { return; }
      if input.payload.NoBoard? { return; }
      if roomID !in states { states := states[roomID := map[]]; }
      states := states[roomID := states[roomID][input.playerID := PlayerState(input.source, input.payload)]];
      assert states == old(states)[roomID := states[roomID]];
    }

    /** The guards of SubmitInput, under a lock that is released after them. */
    method CheckInput(roomID: string, input: Input) returns (error: Option<Error>)
      ensures error == InputError(State(), roomID, input)
      ensures error.None? <==>
                && roomID in rooms && input.playerID in rooms[roomID].playerIDs
                && input.playerID in players && players[input.playerID].roomID == roomID
                && (players[input.playerID].controlMode in ["human", "agent"] ==>
                      input.source == players[input.playerID].controlMode)
    {
      if roomID !in rooms { return Some(RoomNotFound); }
      if input.playerID !in rooms[roomID].playerIDs { return Some(PlayerNotRoomMember); }
      if input.playerID !in players { return Some(PlayerNotFound); }
      var p := players[input.playerID];
      if p.roomID != roomID { return Some(PlayerNotInRoom); }
      if p.controlMode == HUMAN && input.source != HUMAN { return Some(ControlModeMismatch); }
      if p.controlMode == AGENT && input.source != AGENT { return Some(ControlModeMismatch); }
      return None;
    }

    /** What follows once the guards have held, whatever has happened since. */
    method PostInput(roomID: string, input: Input, published: bool) returns (r: Result<()>)
      modifies this`states, this`outbox
      ensures State() == InputPosted(old(State()), roomID, input, published)
      ensures outbox == old(outbox) + if published then [RoomInput(roomID, input)] else []
      ensures states == if input.action == "state_sync" && roomID in rooms && input.payload.Snapshot?
                        then old(states)[roomID :=
                               (if roomID in old(states) then old(states)[roomID] else map[])
                               [input.playerID := PlayerState(input.source, input.payload)]]
                        else old(states)
      ensures r == if published then Ok(()) else Err(PublishFailed)
    {
      if input.action == "state_sync" { UpsertRoomState(roomID, input); }
      if !published { return Err(PublishFailed); }
      outbox := outbox + [RoomInput(roomID, input)];
      return Ok(());
    }

    /** The whole call, when no other one comes in between. */
    method SubmitInput(roomID: string, input: Input, published: bool) returns (r: Result<()>)
      modifies this`states, this`outbox
      ensures match InputError(old(State()), roomID, input)
              case Some(error) => State() == old(State()) && r == Err(error)
              case None => State() == InputPosted(old(State()), roomID, input, published)
                           && r == if published then Ok(()) else Err(PublishFailed)
    {
      var error := CheckInput(roomID, input);
      if error.Some? { return Err(error.value); }
      r := PostInput(roomID, input, published);
    }

    /** The body of consumePlayerEvents' loop for one event. */
    method ConsumePlayerEvent(e: Event)
      requires WellKeyed(State()) && e.PlayerReady?
      modifies this
      ensures State() == Heard(old(State()), e)
    {
      var incoming := e.player;
      if incoming.id in players {
        var local := players[incoming.id];
        if local.roomID == "" {
          players := players[incoming.id := local.(ready := incoming.ready, ping := incoming.ping,
                                                   appID := incoming.appID, version := incoming.version)];
        }
      } else {
        if incoming.roomID == "" && incoming.ready {
          remote := remote[incoming.id := incoming];
        } else {
          remote := remote - {incoming.id};
        }
      }
      var room := TryMatchLocked(incoming.appID, incoming.version);
    }

    /** A room_assigned event: its members that are local take their seats. */
    method AssignRoom(room: Room)
      modifies this`players, this`remote, this`rooms, this`states
      ensures State() == AssignmentHeard(old(State()), room)
    {
      rooms := rooms[room.id := room];
      for i := 0 to |room.playerIDs|
        invariant rooms == old(rooms)[room.id := room] && states == old(states)
        invariant remote == old(remote) - (set id | id in room.playerIDs[..i])
        invariant players == map id | id in old(players) ::
          if id in room.playerIDs[..i] then Seated(old(players)[id], room.id) else old(players)[id]
      {
        var pid := room.playerIDs[i];
        assert room.playerIDs[..i + 1] == room.playerIDs[..i] + [pid];
        remote := remote - {pid};
        if pid in players {
          players := players[pid := Seated(players[pid], room.id)];
        }
      }
      assert room.playerIDs[..|room.playerIDs|] == room.playerIDs;
      if room.id !in states { states := states[room.id := map[]]; }
      ghost var after := AssignmentHeard(old(State()), room);
      assert players == after.players && remote == after.remote;
    }

    /** The body of consumeRoomEvents' loop for one event. */
    method ConsumeRoomEvent(e: Event)
      requires WellKeyed(State()) && !e.PlayerReady?
      modifies this
      ensures State() == Heard(old(State()), e)
    {
      hide AssignmentHeard, StateStored;
      match e
      case RoomAssigned(room) => AssignRoom(room);
      case RoomInput(roomID, input) =>
        if roomID != "" {
          if input.action == "state_sync" { UpsertRoomState(roomID, input); }
        }
      case ControlSwitched(_, _, _, _, _) =>
      case PlayerReady(_) => assert false;
    }
  }
}
