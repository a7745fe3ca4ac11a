# Verification of the Assembler apps

A Dafny model of the stateful parts of the repository, with proofs of what they keep. Five parts, independent of
each other; in each, one module says on values what every operation does, further modules prove properties of
whole runs, and a class updates its fields in place as the source does and is proved to do what the first module says.

- **Tetris** (`PieceGenerator`, `Board`, `Tetris`, `TetrisPage`): the game of the Tetris page. The piece generator has
  full period; games keep a 20x10 field without full rows and a piece that fits; cells are conserved; a hard drop is
  soft drops; equal seeds deal equal pieces.
- **Rooms** (`Strings`, `RoomManager`, `RoomService`, `RoomProtocol`, `RoomBookings`, `RoomCompleteness`): the match-making of nodes
  that each seat one player and tell each other of ready players and rooms. Any published event may reach any node,
  its sender included, late, repeatedly, out of order or never. Two nodes agree in every run and finish once
  everything has arrived; three need not agree, and the exact condition and the bound that is left are proved.
- **Registry** (`RegistryLog`, `RegistryDecisions`, `RegistryPending`, `Registry`): the contract that lists bootnodes and contacts and keeps contact requests.
  Its events alone, folded over plain sets and maps, give its storage after every transaction, although that uses
  arrays, position tables and swap-and-pop.
- **Transport** (`PubSub`, `MemoryPubSub`): the in-memory topics with bounded queues. Received plus queued is what was
  published while subscribed, minus what met 64 queued messages; cancels touch only their own subscription.
- **Social** (`Social`, `SocialReader`, `SocialConversations`, `SocialService`, `SocialHandshake`,
  `SocialRestarts`): the inbox that reads two topic logs at least once, and the friend handshake over an unreliable network. Reading comes to the same as reading
  each log once, in whatever interleaving; the two sides of a handshake never contradict each other as long as nobody
  restarts on a state file that misses a decision.

What does not hold of the source in general, each with the exact condition under which it does:

- An applicant can have several Pending requests: removing a contact clears the recorded id of a request that was
  submitted before the account was added. Exact conditions for a step, a run and its continuations are
  `RegistryPending.SecondNeedsSubmit`, `RegistryPending.OneExactlyWithoutSecond`,
  `RegistryPending.LinkedExactlyWithoutRemoval` and `RegistryPending.OneStaysExactlyWhenLinked`; a run is
  `RegistryPending.TwoPending`, and the bound that always holds `RegistryLog.PendingBound`.
- With three or more nodes a player can be booked twice (`RoomProtocol.AgreementNeedsTwoNodes`).
- An answer to a friend request whose call comes back before the state file is written, because the sender is unknown or
  publishing fails, is forgotten by a restart (`SocialRestarts.SafeExactlyWhenWritten`, with a run in
  `SocialRestarts.LostAnswerDisagrees`).
- A new subscription starts from the lowest recorded cursor, so with only one of the two topics recorded records of the
  other are missed (`SocialReader.ResubscribeCovers`, with a run in `SocialReader.InboxRecordMissed`).
- A secure envelope on the presence topic that the user can open makes the order between the topics matter
  (`SocialReader.OrdersAgreeExactlyWhenHarmless`).
- A user id with a dot does not survive its inbox topic (`Social.InboxTopicRoundTrip`). Ids are generated without dots.

Assumptions of the theorems, each a precondition or part of the step relation where it is used: players on different
nodes have different ids; for completeness one app and version; a transaction's sender is not the zero address; record
offsets start at 1; friend-request ids are unique and the users of a handshake all run this program under dot-free ids.

The whole project verifies with `dafny verify dfyconfig.toml`.

## Model

| member | source | states |
|---|---|---|
| PieceGenerator.FullPeriod | apps/tetris-web/web/tetris.html:527-530 | from any seed the state after n draws is the seed again exactly when 2^32 divides n: the generator has full period |
| PieceGenerator.NoEarlyRepeat | apps/tetris-web/web/tetris.html:527-530 | no state comes twice within 2^32 draws, from any point of the sequence |
| PieceGenerator.DrawsAreAffine | apps/tetris-web/web/tetris.html:527-530 | the signed multiplication and the unsigned shift together are the recurrence 1664525*x + 1013904223 modulo 2^32 |
| PieceGenerator.NextRandIsLinear | apps/tetris-web/web/tetris.html:527-530 | one step of the generator is 1664525*x + 1013904223 modulo 2^32 |
| PieceGenerator.PieceIndex | apps/tetris-web/web/tetris.html:504-505 | the index drawn is one of 0..6 |
| PieceGenerator.SeedOfHash | apps/tetris-web/web/tetris.html:520 | a seed is a 32-bit number and never 0 |
| PieceGenerator.Fnv1a32 | apps/tetris-web/web/tetris.html:514-525 | the loop over the text's UTF-16 units leaves their FNV-1a hash, replaced by 1 if it is 0 |
| PieceGenerator.FnvVectors | apps/tetris-web/web/tetris.html:514-520 | the hash has the published FNV-1a values for "a" and "foobar" |
| Board.Collide | apps/tetris-web/web/tetris.html:532-543 | says true exactly when some cell of the piece is beside or below the field or on a block; cells above the field are free |
| Board.CollidesSpelled | apps/tetris-web/web/tetris.html:532-543 | a collision is a filled cell of the matrix beside the field, below it, or on a block in it |
| Board.MergeFillsEmptyCells | apps/tetris-web/web/tetris.html:545-554 | a piece that fits is written only to empty cells on the field: filled cells grow by its visible cells, old blocks stay as they are, new ones have the piece's kind |
| Board.MergeSpelled | apps/tetris-web/web/tetris.html:545-554 | a cell of the field takes the piece's kind exactly where the matrix, laid at the piece's place, is filled |
| Board.RemoveFullRows | apps/tetris-web/web/tetris.html:556-567 | the downward loop with its re-examined index ends, leaves as many empty rows as there were full ones followed by the other rows in their order, and counts the full rows |
| Board.RowsMoveDown | apps/tetris-web/web/tetris.html:556-567 | as many rows on top are empty as there were rows without an empty cell, and every other row moves down by the number of complete rows below it |
| Board.ClearedIsClean | apps/tetris-web/web/tetris.html:556-567 | after clearing the field is 20x10 and no row is full |
| Board.ClearingConserves | apps/tetris-web/web/tetris.html:556-567 | clearing takes away exactly ten filled cells per full row |
| Board.AtMostFourRows | apps/tetris-web/web/tetris.html:545-567 | a piece merged into a field without full rows completes at most four rows |
| Board.VisibleAtMostFour | apps/tetris-web/web/tetris.html:545-554 | at most four cells of a piece lie on the field |
| Board.ShapeCells | apps/tetris-web/web/tetris.html:322-330 | which four cells of its square matrix each of the seven shapes fills |
| Board.RotateMatrix | apps/tetris-web/web/tetris.html:603-612 | the two nested loops put what was in row y and column x into row x and column n - 1 - y: the turn is clockwise |
| Board.FourTurns | apps/tetris-web/web/tetris.html:603-612 | four quarter turns of a square matrix give it back |
| Board.RotationKeepsCells | apps/tetris-web/web/tetris.html:603-612 | a quarter turn keeps the number of cells |
| Board.Landing | apps/tetris-web/web/tetris.html:645-646 | the fall of a hard drop ends, at the lowest place straight below that fits and below which the piece does not fit |
| Board.FreeFall | apps/tetris-web/web/tetris.html:645 | nothing is in the way between a piece and its landing |
| Tetris.Spawned | apps/tetris-web/web/tetris.html:579-601 | the spawned piece fits, or the game is over and stopped |
| Tetris.SpawnDraws | apps/tetris-web/web/tetris.html:504-512 | what was next comes into play; the next piece is of the kind drawn by one generator step and stands centred one row above the field; the game is over exactly when the piece in play is obstructed |
| Tetris.Locked | apps/tetris-web/web/tetris.html:633-637 | merging, clearing and spawning keep what holds between moves: a 20x10 field without full rows, a piece that fits unless the game is over, level and drop interval determined by the lines |
| Tetris.Moved | apps/tetris-web/web/tetris.html:627-641 | the same for a move in any direction, taken or refused |
| Tetris.MoveAdds | apps/tetris-web/web/tetris.html:627-641 | where no cell is in the way a move adds dx to the column and dy to the row and changes nothing else; else the piece stays, and downwards it locks |
| Tetris.LeftThenRight | apps/tetris-web/web/tetris.html:627-641 | a free move to the left lowers the column by one, and one to the right then gives the game back |
| Tetris.Dropped | apps/tetris-web/web/tetris.html:643-651 | the same for a hard drop |
| Tetris.RotationTried | apps/tetris-web/web/tetris.html:614-625 | the same for a rotation |
| Tetris.KickTaken | apps/tetris-web/web/tetris.html:614-625 | the rotation takes the first of the kicks that fits and leaves the piece as it was exactly when none does |
| Tetris.RotationTurns | apps/tetris-web/web/tetris.html:614-625 | the piece stands turned clockwise on the plane, moved by the first of 0, -1, 1, -2, 2 columns for which no turned cell is in the way, or as it was if each has one |
| Tetris.LockScores | apps/tetris-web/web/tetris.html:569-574 | a lock clears as many lines as rows were completed, at most 4; the score grows by 0, 100, 300, 500 or 800 times the level before, so the fallback gain is never used; level is lines / 10 + 1 and the drop interval 1700 - 55 * (level - 1) but at least 420 |
| Tetris.LockConserves | apps/tetris-web/web/tetris.html:545-577 | ten cells per cleared line plus the cells on the field grow by exactly the visible cells of the locked piece |
| Tetris.RestartFits | apps/tetris-web/web/tetris.html:771-791 | a restart leaves an empty field, score and lines 0, and the pieces of the first two draws; the first always fits, so a restart never ends the game |
| Tetris.Started | apps/tetris-web/web/tetris.html:738-757 | starting keeps what holds between moves, also when it restarts a game that is over |
| Tetris.Run | apps/tetris-web/web/tetris.html:496-791 | what holds between moves holds after every sequence of moves, rotations, drops, restarts, starts and pauses |
| Tetris.StepAccounting | apps/tetris-web/web/tetris.html:545-651 | each action either begins a fresh game or adds the visible cells it locks to ten times the lines plus the filled cells, never lowers the score and clears at most four lines |
| Tetris.GameConserves | apps/tetris-web/web/tetris.html:545-577 | in every game ten times the lines plus the filled cells equals the visible cells of all pieces locked since the last restart, at most four each |
| Tetris.SameSeedSamePieces | apps/tetris-web/web/tetris.html:504-530 | two games begun from one seed in which as many pieces were locked have the same kind of current piece, the same next piece and the same generator state, however they were played |
| Tetris.HardDropIsSoftDrops | apps/tetris-web/web/tetris.html:627-651 | a hard drop equals soft drops until the piece locks, in field, score, lines and pieces; before that each soft drop moves it one row |
| TetrisPage.Page.constructor | apps/tetris-web/web/tetris.html:771-791 | the page starts with a laid out game that is not running |
| TetrisPage.Page.SeedPieceRNG | apps/tetris-web/web/tetris.html:523-525 | the generator state becomes the hash of the text |
| TetrisPage.Page.RandomPiece | apps/tetris-web/web/tetris.html:504-512 | one draw, and the piece of the drawn index, centred one row above the field |
| TetrisPage.Page.MergePiece | apps/tetris-web/web/tetris.html:545-554 | the loops over the matrix write just the piece's visible cells into the field in place, all within bounds |
| TetrisPage.Page.ClearLines | apps/tetris-web/web/tetris.html:556-577 | field, lines, score, level and drop interval change as computed by the clearing rule; a field without full rows stays |
| TetrisPage.Page.SpawnPiece | apps/tetris-web/web/tetris.html:579-601 | next becomes current, one piece is drawn, and the game ends if the piece collides |
| TetrisPage.Page.TryRotate | apps/tetris-web/web/tetris.html:614-625 | the loop over the kicks, in place: afterwards the plane cells are those of the piece turned clockwise at the first kick that fits, or of the original |
| TetrisPage.Page.MoveBy | apps/tetris-web/web/tetris.html:627-641 | column and row change by dx and dy where nothing is in the way; else the piece is put back, and locked when it went down |
| TetrisPage.Page.HardDropPiece | apps/tetris-web/web/tetris.html:643-651 | the loop that lowers the piece until it collides ends; the piece locks at its landing |
| TetrisPage.Page.RestartGame | apps/tetris-web/web/tetris.html:771-791 | the whole state is that of a new game with the given seed |
| TetrisPage.Page.StartGame | apps/tetris-web/web/tetris.html:738-757 | starts at most once, restarting a game that is over |
| TetrisPage.Page.PauseGame | apps/tetris-web/web/tetris.html:759-769 | toggles the pause of a running game only |
| Tetris.TakeoverRun | apps/tetris-web/web/tetris.html:1132-1142 | the restart, unpause and start that an agent's takeover needs lead to the game that was there, or a new one if it was over, running and not paused |
| TetrisPage.Page.EnsureAgentPlayableState | apps/tetris-web/web/tetris.html:1132-1142 | the state afterwards is that after this run of actions, so what is proved of runs holds of agent play, and the game is being played |
| Strings.LessAtFirstDifference | internal/tetrisroom/manager.go:213-219 | strings compare by the first character in which they differ, a proper prefix coming first |
| Strings.DecimalReadsBack | internal/tetrisroom/manager.go:228 | the digits of a room number read back as the number, without a leading zero |
| RoomManager.CandidatesAre | internal/tetrisroom/manager.go:190-205 | candidates are the local players that are ready and unassigned under the app and version, and such remote ones whose id none of them has |
| RoomManager.LeastPingsMeet | internal/tetrisroom/manager.go:211-225 | of an opened room the host has the least ping of all candidates and the other member the least of the others, the smaller id counting among equal pings, and the member with the smaller id is local |
| RoomManager.MatchPicksTheLeast | internal/tetrisroom/manager.go:190-235 | so the members depend on the set of candidates only, not on any map order |
| RoomManager.MatchOpensWhen | internal/tetrisroom/manager.go:211-225 | a room is opened exactly when two candidates have the least pings and the one with the smaller id is local |
| RoomManager.MatchSeats | internal/tetrisroom/manager.go:227-249 | opening a room stores, counts and announces it under "room_" and the next number, seats the members that wait here and takes both off the remote table; all else stays |
| RoomManager.MatchedRoom | internal/tetrisroom/manager.go:214-235 | an opened room has two different candidates as members, the first is the host, the smaller id is local, and its number is the counter's next value |
| RoomManager.OwnerIsEligible | internal/tetrisroom/manager.go:217-225 | with no id both local and remote, the local owner of an opened room is itself a waiting player of that app and version |
| RoomManager.MatchIsIdempotent | internal/tetrisroom/manager.go:185-252 | with no id both local and remote, matching again at once opens nothing and changes nothing |
| RoomManager.LeastExists | internal/tetrisroom/manager.go:206-215 | the order by ping and id always has a least candidate |
| RoomService.FirstTwoAreBest | internal/tetrisroom/manager.go:206-215 | the first two of a sorted list are the two least candidates |
| RoomService.Manager.RegisterPlayer | internal/tetrisroom/manager.go:110-129 | adds the player with human control, or refuses a known id or a second seat and changes nothing |
| RoomService.Manager.UpsertPlayer | internal/tetrisroom/manager.go:131-157 | creates or updates the seat; an empty app or version leaves the old one, and a seated player keeps both |
| RoomService.Manager.SetReady | internal/tetrisroom/manager.go:159-183 | marks the player ready, publishes it, then matches; refuses a negative ping, an unknown or a seated player and changes nothing |
| RoomService.Manager.CollectCandidates | internal/tetrisroom/manager.go:190-205 | the two loops collect exactly the ready, unassigned players of the app and version, a local entry hiding a remote one |
| RoomService.Manager.SortCandidates | internal/tetrisroom/manager.go:206-216 | the list holds each candidate once, sorted by ping and id, whatever order the map yields them in |
| RoomService.Manager.FirstTwo | internal/tetrisroom/manager.go:206-216 | nothing below two candidates, else the two least |
| RoomService.Manager.TryMatchLocked | internal/tetrisroom/manager.go:185-252 | room, seated members, shortened remote table, counter and announcement are as the matching rule says, or nothing changes |
| RoomService.Manager.ToggleControl | internal/tetrisroom/manager.go:277-315 | changes the mode and agent of a member seated in the room and announces it; each refusal has its own error and changes nothing |
| RoomService.Manager.CheckInput | internal/tetrisroom/manager.go:317-345 | the guards, each with its error, in the order of the source; nothing changes |
| RoomService.Manager.PostInput | internal/tetrisroom/manager.go:347-357 | what follows after the lock was released, in whatever state: a state_sync snapshot is stored, and the input published unless that fails, which is reported |
| RoomService.Manager.SubmitInput | internal/tetrisroom/manager.go:317-358 | the two one after the other, when nothing comes in between; a refusal changes nothing |
| RoomService.Manager.UpsertRoomState | internal/tetrisroom/manager.go:484-519 | stores the snapshot under the room and player if the room is known and the payload has a board |
| RoomService.Manager.ConsumePlayerEvent | internal/tetrisroom/manager.go:409-440 | refreshes an unassigned local player or the remote table, then matches for the event's app and version |
| RoomService.Manager.AssignRoom | internal/tetrisroom/manager.go:454-470 | stores the room, takes its members off the remote table and seats the local ones |
| RoomService.Manager.ConsumeRoomEvent | internal/tetrisroom/manager.go:442-482 | assigns rooms, stores synced snapshots, ignores the rest |
| RoomManager.PlayerHeardLaw | internal/tetrisroom/manager.go:418-437 | a player_ready event refreshes an unassigned local player, or enters or removes the remote one it is about; all else stays |
| RoomManager.AssignmentHeardLaw | internal/tetrisroom/manager.go:448-470 | a room_assigned event stores the room, seats its local members and takes all members off the remote table; all else stays |
| RoomManager.InputHeardLaw | internal/tetrisroom/manager.go:471-480 | of the other events only a synced snapshot for a known room does anything |
| RoomProtocol.RunKeeps | internal/tetrisroom/manager.go:110-482 | what the tables, counters and published events of all nodes keep over every run with lost, late, reordered and repeated events |
| RoomProtocol.OneRoomPerNode | internal/tetrisroom/manager.go:217-249 | with distinct ids a node opens at most one room in its life, with two registered members of which its own player is the smaller |
| RoomProtocol.BookingBound | internal/tetrisroom/manager.go:217-249 | in every run a player is a member of at most as many opened rooms as there are ids up to its own that are not the largest of all |
| RoomBookings.OpenersUpTo | internal/tetrisroom/manager.go:217-225 | that is at most k for the k-th id in order, and one less for the last one |
| RoomBookings.BoundIsAttained | internal/tetrisroom/manager.go:217-249 | for every player there is a run that books it just so often |
| RoomProtocol.TwoNodesAgree | internal/tetrisroom/manager.go:185-252 | with two nodes at most one room is ever opened, each room table is empty or holds just that room with the same host and members, and a seated player sits in it and is a member |
| RoomProtocol.ThreeNodesCanDoubleBook | internal/tetrisroom/manager.go:244-246 | for any three or more ids there is a run that books one player into two rooms, by an entry in a remote table that is out of date |
| RoomProtocol.AgreementNeedsTwoNodes | internal/tetrisroom/manager.go:185-252 | no run books a player twice if and only if there are at most two nodes |
| RoomCompleteness.OwnerNeverWaitsInRuns | internal/tetrisroom/manager.go:159-183 | with one app and version, the smaller player's node never rests with its player ready and unassigned and the other player in its remote table |
| RoomCompleteness.RoomIsOpened | internal/tetrisroom/manager.go:159-252 | once both players have said they are ready and everything published has arrived everywhere, in any order, a room exists |
| RoomCompleteness.BothAreSeated | internal/tetrisroom/manager.go:409-470 | and then both players sit in the same room, the only one in either node's table |
| RegistryLog.RunAccounts | contracts/AssemblerRegistry.sol:191-268 | after every run requests are numbered without gaps, pendingRequestIdOf points to Pending requests of that applicant, and reviewedBy holds exactly for whoever decided an Approved or Rejected request |
| RegistryLog.TerminalForever | contracts/AssemblerRegistry.sol:211-268 | a request once approved, rejected or cancelled is the same after any further transactions |
| RegistryLog.PendingBound | contracts/AssemblerRegistry.sol:197-207 | an applicant has at most one Pending request more than it was removed as a contact |
| RegistryLog.ReviewsGoThrough | contracts/AssemblerRegistry.sol:211-251 | AlreadyReviewed is unreachable: a review succeeds exactly when the owner reviews a Pending request, and adding the contact never makes an approval fail |
| RegistryDecisions.CallStatus | contracts/AssemblerRegistry.sol:211-268 | after a transaction a request has the status the call stands for where it went through, else the one before, and Pending when new |
| RegistryDecisions.StatusTellsTheCall | contracts/AssemblerRegistry.sol:211-268 | in every run a request is Approved, Rejected or Cancelled exactly when a transaction that approves, rejects or cancels it went through, and Pending exactly when none did |
| RegistryPending.SecondNeedsSubmit | contracts/AssemblerRegistry.sol:191-209 | from a state where nobody has two Pending requests, a transaction gives somebody a second one exactly when it is a submission that goes through although its sender has an unrecorded one |
| RegistryPending.OneExactlyWithoutSecond | contracts/AssemblerRegistry.sol:191-268 | in a whole run nobody ever has two if and only if there is no such submission |
| RegistryPending.LinkedMeansOne | contracts/AssemblerRegistry.sol:194-207 | while every Pending request is the recorded one, no applicant has two |
| RegistryPending.LinkBreaks | contracts/AssemblerRegistry.sol:326-329 | from a state where every Pending request is recorded, a transaction leaves an unrecorded one exactly when the owner removes a contact that has a recorded one |
| RegistryPending.LinkedExactlyWithoutRemoval | contracts/AssemblerRegistry.sol:310-332 | throughout a run every Pending request is the recorded one if and only if the owner never removes such a contact |
| RegistryPending.NoRemovalMeansOne | contracts/AssemblerRegistry.sol:191-332 | so in a run without such removals nobody has two |
| RegistryPending.OrphanMeansSecond | contracts/AssemblerRegistry.sol:191-332 | from an unrecorded Pending request, at most two further transactions give its applicant a second one |
| RegistryPending.OneStaysExactlyWhenLinked | contracts/AssemblerRegistry.sol:191-332 | among the continuations of a run without such removals none gives anybody two if and only if every Pending request is recorded now, or requests can no longer be numbered and nobody has two yet |
| RegistryPending.TwoPending | contracts/AssemblerRegistry.sol:191-332 | such a run: apply, be added, be removed, apply again leaves requests 1 and 2 Pending for one applicant |
| Registry.PushKeeps | contracts/AssemblerRegistry.sol:106-108 | pushing a new member keeps the list free of repetitions and the position table its inverse |
| Registry.SwapPopKeeps | contracts/AssemblerRegistry.sol:119-130 | so does the removal that moves the last member into the gap |
| Registry.PagesAreComplete | contracts/AssemblerRegistry.sol:143-155 | reading page after page of any size gives the list from the offset on, and reverts exactly when the end of the last page is not a 256-bit number |
| Registry.PageCuts | contracts/AssemblerRegistry.sol:143-155 | a page holds the elements from the offset on, as many as asked for or as there are |
| Registry.EachMemberListedOnce | contracts/AssemblerRegistry.sol:143-155 | the pages together list each member of the set exactly once and nothing else |
| Registry.AssemblerRegistry.constructor | contracts/AssemblerRegistry.sol:86-90 | the deployer is owner and only contact, and the two events say so |
| Registry.AssemblerRegistry.TransferOwnership | contracts/AssemblerRegistry.sol:92-97 | the owner changes and the event names both, for the owner and a non-zero successor only; storage is what the log tells; a revert changes nothing |
| Registry.AssemblerRegistry.UpsertBootnode | contracts/AssemblerRegistry.sol:103-113 | the same; the list grows by the id exactly when it is new |
| Registry.AssemblerRegistry.RemoveBootnode | contracts/AssemblerRegistry.sol:115-132 | the same; the last id takes the place of the removed one |
| Registry.AssemblerRegistry.AddContactInternal | contracts/AssemblerRegistry.sol:299-308 | list, flag and position agree with the new contact at the end; the zero address and a known contact are refused |
| Registry.AssemblerRegistry.AddContact | contracts/AssemblerRegistry.sol:161-163 | storage afterwards is what the log tells; a revert changes nothing |
| Registry.AssemblerRegistry.RemoveContactInternal | contracts/AssemblerRegistry.sol:310-332 | list, flag and position agree without the contact, whose pending id is cleared; an unknown contact is refused |
| Registry.AssemblerRegistry.RemoveContact | contracts/AssemblerRegistry.sol:165-167 | storage afterwards is what the log tells; a revert changes nothing |
| Registry.AssemblerRegistry.SubmitContactRequest | contracts/AssemblerRegistry.sol:191-209 | a new Pending request under the next number, recorded for its sender; each guard has its revert, the counter's overflow too; storage is what the log tells |
| Registry.AssemblerRegistry.ApproveRequest | contracts/AssemblerRegistry.sol:211-232 | the request is Approved by the sender now, all else about it and all other requests stay, its applicant is a contact and its recorded id cleared; ContactAdded comes before the approval's own event; storage is what the log tells |
| Registry.AssemblerRegistry.RejectRequest | contracts/AssemblerRegistry.sol:234-251 | the request is Rejected by the sender now, all else about it, all other requests and the contacts stay, and its recorded id is cleared; storage is what the log tells |
| Registry.AssemblerRegistry.CancelMyPendingRequest | contracts/AssemblerRegistry.sol:253-268 | its applicant's Pending request is Cancelled now, without reviewer, all else stays; storage is what the log tells |
| Registry.AssemblerRegistry.GetBootnode | contracts/AssemblerRegistry.sol:138-141 | gives the entry the events tell of, or reverts exactly when there is none |
| Registry.AssemblerRegistry.GetRequest | contracts/AssemblerRegistry.sol:274-278 | gives the request the events tell of, or reverts exactly when there is none |
| Registry.AssemblerRegistry.ListBootnodes | contracts/AssemblerRegistry.sol:143-155 | the loop fills the array with just the page of the list, clipped at its end; a sum above 2^256 - 1 reverts |
| Registry.AssemblerRegistry.ListContacts | contracts/AssemblerRegistry.sol:173-185 | the same for the contacts |
| Registry.AssemblerRegistry.ListRequests | contracts/AssemblerRegistry.sol:280-293 | the same for the requests by number |
| Registry.AssemblerRegistry.ListsAreTold | contracts/AssemblerRegistry.sol:143-185 | the contact list holds each contact the events tell of once, the bootnode list each id once with its latest entry |
| Registry.AssemblerRegistry.RequestsAreTold | contracts/AssemblerRegistry.sol:270-293 | the list of requests holds every request the events tell of, in the order of their numbers |
| Registry.AssemblerRegistry.Transact | contracts/AssemblerRegistry.sol:92-268 | any transaction, successful or reverted, leaves storage equal to the fold of the log |
| Registry.Deploy | contracts/AssemblerRegistry.sol:86-268 | so does every run of transactions from the deployment on |
| PubSub.ReceivedThenQueued | internal/core/network/memory.go:18-30 | in every run what a subscriber has received followed by what is queued is, in order, exactly the publications of its topic during its subscription that found fewer than 64 queued |
| PubSub.OnlyFullQueuesLose | internal/core/network/memory.go:24-28 | so it is a subsequence of what was published; the missing ones each found 64 queued, and nothing is missing exactly when none did |
| PubSub.RegisteredIsLive | internal/core/network/memory.go:32-56 | a topic's table holds exactly the subscriptions whose own cancel has not run, and no topic has an empty table, however often tables are deleted and made anew |
| PubSub.CancelRemovesOne | internal/core/network/memory.go:43-54 | a cancel, first, repeated or late, takes off its own subscription and no other |
| PubSub.CancelIsFinal | internal/core/network/memory.go:43-54 | a cancelled subscription is never live again |
| PubSub.RunKeeps | internal/core/network/memory.go:18-56 | ids are given out once, queues hold at most 64, and what is registered is open: nothing is sent to or closed on a closed channel |
| MemoryPubSub.Channel.TrySend | internal/core/network/memory.go:24-28 | appends unless 64 are queued; the channel must be open |
| MemoryPubSub.MemoryPubSub.Publish | internal/core/network/memory.go:18-30 | the loop in any order offers the message once to every subscriber of the topic and touches no other queue |
| MemoryPubSub.MemoryPubSub.Subscribe | internal/core/network/memory.go:32-41 | a fresh open channel under the next id, in the topic's table |
| MemoryPubSub.MemoryPubSub.Cancel | internal/core/network/memory.go:43-54 | removes and closes the own channel if it is still there, deletes a table left empty, else changes nothing |
| Social.InboxTopicRoundTrip | internal/social/manager.go:1314-1324 | the user id read off an inbox topic is the part before its first dot, so it is the id itself exactly when that has no dot |
| Social.InboxIsNotPresence | internal/social/manager.go:1314-1316 | no inbox topic is the presence topic |
| SocialReader.ConsumedIsFolded | internal/social/manager.go:1035-1041 | the record loop leaves what processing the records taken once each leaves, and the cursors at the last ones |
| SocialReader.TakenIsTheLog | internal/social/manager.go:1083-1092 | of each topic exactly the stretch of the log between the old and the new cursor is taken, in order; cursors never go down |
| SocialReader.ExactlyOnce | internal/social/manager.go:1035-1041 | whatever batches repeat and overlap, as long as none skips a record, the state is one fold that takes of each topic's log its prefix up to the cursor, once and in order |
| SocialReader.WindowsAreGapFree | internal/social/manager.go:1035-1041 | batches made of windows of the logs that start no later than right after the cursor skip no record |
| SocialReader.TopicsCommute | internal/social/manager.go:1104-1299 | a presence record that is no secure envelope this user can open, and an inbox record, may be processed in either order |
| SocialReader.OrdersAgreeExactlyWhenHarmless | internal/social/manager.go:1104-1299 | the two orders agree in every state and for every inbox record if and only if the presence record is none |
| SocialReader.InterleavingIndependence | internal/social/manager.go:1104-1299 | however the two logs interleave, if the presence log holds no envelope this user can open, the tables are those of all presence records followed by all inbox records |
| SocialReader.InboxIsAFunctionOfTheLogs | internal/social/manager.go:1035-1143 | so the two cursors alone determine known users, requests, friends, conversations and seen ids |
| SocialConversations.MessageAppends | internal/social/manager.go:1279-1296 | a new message goes to the end of its sender's conversation and touches no other, nor requests, friends and known users |
| SocialConversations.ResponseRecords | internal/social/manager.go:1267-1278 | a new response sets the status of a known request and makes a friend exactly by acceptance; all else stays |
| SocialConversations.RequestEnters | internal/social/manager.go:1228-1266 | a new request is entered as waiting under the wallet's name exactly when the sender may ask, the wallet is proven, the name its own and the id new; all else stays |
| SocialConversations.ConversationIsSaid | internal/social/manager.go:1167-1296 | whatever records are read, a conversation grows by exactly the messages of its peer among the envelopes opened, each id once, in order |
| SocialConversations.ConversationsAreComplete | internal/social/manager.go:1035-1041 | so after any batches, repeated as they may be, it is the opened messages of its peer among the records taken |
| SocialConversations.DirectoryIsLatest | internal/social/manager.go:1122-1143 | a user is known by the latest announcement read, or as before if there was none |
| SocialReader.ResubscribeCovers | internal/social/manager.go:1059-1071 | everything a new subscription may serve from its one offset carries on from the cursors without skipping a record if and only if none of the two topics has a cursor or both have (or, where the record at the offset is served again, the only one is 1) |
| SocialReader.ExactlyOnceAcrossRestart | internal/social/manager.go:1035-1081 | then the records taken before and after a restart are together, of each topic, the prefix of its log up to the cursor, once and in order |
| SocialReader.InboxRecordMissed | internal/social/manager.go:1059-1071 | otherwise: with the presence log read to its second record, the first inbox record that arrives meanwhile is never served and never taken |
| SocialService.Manager.constructor | internal/social/manager.go:139-170 | starts with what the state file holds and with no seen ids |
| SocialService.Manager.HandlePresence | internal/social/manager.go:1122-1143 | enters the announced user, except oneself and one without id, and writes the state file exactly then |
| SocialService.Manager.HandleSecure | internal/social/manager.go:1145-1299 | an envelope for this user, new and in order: its id is remembered; a message is appended to its sender's conversation, a response recorded, a request entered; any other envelope changes nothing; the state file is written unless a request is turned down |
| SocialService.Manager.ProcessRecord | internal/social/manager.go:1104-1120 | presence is read from its topic only, secure envelopes from any |
| SocialService.Manager.ReadBatch | internal/social/manager.go:1035-1102 | the loop over a batch skips what is no news and processes and commits the rest in order; where anything was news the state file holds everything afterwards |
| SocialService.Manager.EnsureSubscribed | internal/social/manager.go:1050-1081 | the loop over the cursors in any order finds the lowest one, or 0 without cursors; nothing is asked twice or without a profile |
| SocialService.Manager.SendFriendRequest | internal/social/manager.go:334-386 | records the request as sent and publishes it, each guard with its error; when publishing fails the record stays in memory but is not saved |
| SocialService.Manager.RespondFriendRequest | internal/social/manager.go:388-424 | decides a request that waits, befriends on acceptance, and publishes the response; when the sender is unknown or publishing fails the decision stays in memory but is not saved |
| SocialHandshake.NextKeeps | internal/social/manager.go:334-424 | every step of the network or a user, except a restart that misses a decision, keeps what holds of all tables, state files and envelopes, and forgets no decision or friend |
| SocialHandshake.StepIsBehind | internal/social/manager.go:388-424 | a state file lacks at most requests just sent and decisions, and lacks a decision exactly when one was taken, or lacked before, and the step writes no file |
| SocialRestarts.RunKeeps | internal/social/manager.go:334-424 | what holds in every run with lost, late, repeated and reordered messages, failed publications and restarts, in which nobody restarts between an answer that came back early and the next writing of the file; only such an answer leaves a decision out of the file |
| SocialRestarts.SafeExactlyWhenWritten | internal/social/manager.go:388-424 | at every step of a run all users agree, and no decision or friend is forgotten, if and only if there is no such restart |
| SocialRestarts.LostAgreement | internal/social/manager.go:388-424 | a restart that misses a decision of which the asker has been told makes the two disagree at once |
| SocialRestarts.LostAnswerDisagrees | internal/social/manager.go:388-424 | such a run: an acceptance that is not reported but gets through, a restart, a rejection; the asker keeps a friend who has rejected it |
| SocialRestarts.HandshakeAgrees | internal/social/manager.go:1269-1278 | without such a restart: when the asker's record says accepted or rejected so does the other user's, and after an acceptance each is a friend of the other |
| SocialRestarts.OnlyEarnedFriends | internal/social/manager.go:402-405 | without such a restart: a friend is always somebody of the two of whom one asked and the other accepted |
| SocialRestarts.DecisionsAreForever | internal/social/manager.go:396-408 | without such a restart: a handled request is never reopened or changed and a friend never lost, whatever is delivered again |
| SocialRestarts.ResponseCompletes | internal/social/manager.go:1269-1278 | without such a restart: a response that reaches the asker as something new leaves its record, if it still has one, equal to the other's, and after an acceptance both are friends of each other |

## Left out

- HTTP routing, server-sent events, the local RPC client and the libp2p transport: plumbing; a call that fails is a
  publication that is never delivered.
- Cryptography, base64, JSON, wallet signatures and key files: an envelope either opens to its body or is dropped; what
  the wallet checks say is a parameter (`walletProven`, `nameMatches`, `Wallet`). Trimming and case folding of wallet
  addresses and names belong to these checks.
- Clocks and timestamps: `UpdatedAt`, `CreatedAt` and the like are not part of the entries; the registry's `block.timestamp`
  is a parameter. A direct message that arrives without id, to which the source gives one made from the clock, keeps the
  empty id.
- Canvas drawing, animation frames, the tick timer (a tick is a move by (0, 1)), best score, local storage, translation
  and status lines of the page; the agent's restart timer is the action Restart followed by Start. `next || randomPiece()`
  always finds a next piece, because every restart draws one first.
- JavaScript numbers are unbounded integers except in the piece generator, where the 32-bit wrap-around is written out;
  the room counter's 64-bit width is not modelled.
- The Tetris variant in `apps/tetris-local` and the single-seat server in `internal/localtetrisapi`: the same game and
  special cases of the room manager.
- `sort.Slice` is modelled as an insertion sort by the same order; on distinct ids the order is total, so any sorting
  gives the same list.
- Room events carry no meta data (reason, host ping), and the second copy of a room event that goes to the room's own
  topic is not modelled, since managers do not read it.
- RoomService.Manager.SubmitInput: the source releases its lock between the guards and the rest, so a snapshot may belong
  to a control mode that has just changed. `CheckInput` and `PostInput` are the two halves; in the runs of `RoomProtocol` the
  second half may happen at any time, which allows more than the source does.
- GetPlayer, GetRoom, GetRoomStates, Conversation, Snapshot and the other plain getters, and the counts of the registry: one
  field each.
- Social profile handling, invites, direct-message sending and the event listeners; a direct message received is modelled.
- Acknowledgements sent to the daemon, which the source ignores the result of.
- SocialReader.ExactlyOnceAcrossRestart: for a process that stops between two records. The state file is written twice for
  a record, by its handler and with its cursor; one that stops in between reads the record again, with the seen ids gone.
- SocialRestarts.RunKeeps: a write of the state file never fails, and users who do not run this program are not modelled.
  Every record read writes the file with its cursor, so only calls of the user can leave it behind.
- Registry.PagesAreComplete: for a list that does not change between the pages; with mutations in between the source
  promises nothing.
- Gas, calldata encoding and string encoding of the contract: strings are byte sequences.
- The operating-system scheduling of goroutines: every method that holds the lock is one step. A publication holds the
  read lock only, so two of them may reach two subscribers in different orders, while in `PubSub` a publication reaches all
  subscribers at once. What is stated of one subscriber does not depend on that: its own messages still come one after
  the other, and no subscription or cancel comes between; an order between subscribers is not claimed.
- What the daemon behind the social manager serves: `SocialReader.Rule` leaves open whether the record at the offset a
  subscription starts from is among it.
