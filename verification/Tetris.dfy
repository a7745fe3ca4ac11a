/** The Tetris page's game (apps/tetris-web/web/tetris.html): the state its functions change,
    what each of them does to it, and what holds in every game that can be played. */
module Tetris {
  import opened Board
  import opened PieceGenerator

  const NORMAL_DROP_MS := 1700
  const FASTEST_DROP_MS := 420
  const DROP_STEP_MS := 55

  datatype Game = Game(
    board: Grid,
    current: Piece,
    next: Piece,
    score: int,
    lines: int,
    level: int,
    dropInterval: int,
    running: bool,
    paused: bool,
    gameOver: bool,
    gameStarted: bool,
    prng: Word)

  // ---------------------------------------------------------------------------
  // What holds between moves
  // ---------------------------------------------------------------------------

  function KindAt(index: int): Kind
    requires 0 <= index < 7
  {
    [I, O, T, S, Z, J, L][index]
  }

  function NewPiece(kind: Kind): Piece {
    Piece(kind, Shape(kind), (COLS - |Shape(kind)|) / 2, -1)
  }

  /** The piece randomPiece returns when the generator has advanced to this state. */
  function PieceFor(state: Word): Piece {
    NewPiece(KindAt(PieceIndex(state)))
  }

  function DropInterval(level: int): int {
    var interval := NORMAL_DROP_MS - (level - 1) * DROP_STEP_MS;
    if interval < FASTEST_DROP_MS then FASTEST_DROP_MS else interval
  }

  /** The board and the numbers beside it are sound. */
  ghost predicate Sound(g: Game) {
    && IsGrid(g.board)
    && (forall row | row in g.board :: !Full(row))
    && g.next == NewPiece(g.next.kind)
    && g.lines >= 0 && g.score >= 0
    && g.level == g.lines / 10 + 1
    && g.dropInterval == DropInterval(g.level)
  }

  /** The state between moves: while the game is not over the current piece fits. */
  ghost predicate Inv(g: Game) {
    && Sound(g)
    && Oriented(g.current) && Square(g.current.matrix)
    && (!g.gameOver ==> !Collides(g.current, g.board))
    && (g.gameOver ==> !g.running)
  }

  predicate Playing(g: Game) {
    g.running && !g.paused && !g.gameOver
  }

  lemma NewPieceIsOriented(kind: Kind)
    ensures Oriented(NewPiece(kind)) && Square(NewPiece(kind).matrix)
  {
    ShapeCells(kind);
    assert NewPiece(kind).matrix == Turned(0, Shape(kind));
  }

  lemma MovedIsOriented(p: Piece, x: int, y: int)
    requires Oriented(p)
    ensures Oriented(p.(x := x, y := y))
  {
    var k: nat :| k < 4 && p.matrix == Turned(k, Shape(p.kind));
    assert p.(x := x, y := y).matrix == Turned(k, Shape(p.(x := x, y := y).kind));
  }

  // ---------------------------------------------------------------------------
  // What each function does
  // ---------------------------------------------------------------------------

  /** [0, 100, 300, 500, 800][cleared] || cleared * 200 */
  function Gain(cleared: nat): nat {
    match cleared
    case 1 => 100
    case 2 => 300
    case 3 => 500
    case 4 => 800
    case _ => cleared * 200
  }

  /** clearLines */
  function LinesCleared(g: Game): Game {
    var n := FullCount(g.board);
    var swept := g.(board := Cleared(g.board));
    if n == 0 then swept
    else
      var level := (g.lines + n) / 10 + 1;
      swept.(lines := g.lines + n, score := g.score + Gain(n) * g.level,
             level := level, dropInterval := DropInterval(level))
  }

  /** spawnPiece: the piece shown as next comes into play and a new one is drawn. */
  ghost function Spawned(g: Game): (after: Game)
    requires Sound(g) && !g.gameOver
    ensures Inv(after)
  {
    NewPieceIsOriented(g.next.kind);
    var state := NextRand(g.prng);
    var after := g.(current := g.next, next := PieceFor(state), prng := state);
    if Collides(after.current, after.board) then after.(running := false, gameOver := true) else after
  }

  /** mergePiece, clearLines and spawnPiece, one after the other. */
  ghost function Locked(g: Game): (after: Game)
    requires Inv(g) && !g.gameOver
    ensures Inv(after)
  {
    var merged := g.(board := Merge(g.board, g.current));
    ClearedIsClean(merged.board);
    GainIsNonNegative(FullCount(merged.board), g.level);
    Spawned(LinesCleared(merged))
  }

  lemma GainIsNonNegative(cleared: nat, level: int)
    requires level >= 1
    ensures Gain(cleared) * level >= 0
  {
  }

  function Shifted(p: Piece, dx: int, dy: int): Piece {
    p.(x := p.x + dx, y := p.y + dy)
  }

  /** move */
  ghost function Moved(g: Game, dx: int, dy: int): (after: Game)
    requires Inv(g)
    ensures Inv(after)
  {
    var shifted := Shifted(g.current, dx, dy);
    MovedIsOriented(g.current, shifted.x, shifted.y);
    if !Playing(g) then g
    else if !Collides(shifted, g.board) then g.(current := shifted)
    else if dy == 1 then Locked(g)
    else g
  }

  /** hardDrop */
  ghost function Dropped(g: Game): (after: Game)
    requires Inv(g)
    ensures Inv(after)
  {
    if !Playing(g) then g
    else
      var landed := Landing(g.current, g.board);
      MovedIsOriented(g.current, landed.x, landed.y);
      Locked(g.(current := landed))
  }

  const KICKS: seq<int> := [0, -1, 1, -2, 2]

  function QuarterTurn(p: Piece, dx: int): (after: Piece)
    requires Square(p.matrix)
    ensures Square(after.matrix)
  {
    p.(matrix := Rotated(p.matrix), x := p.x + dx)
  }

  /** The turned piece at the first kick that fits, or the piece as it was. */
  ghost function Kicked(p: Piece, b: Grid, kicks: seq<int>): (after: Piece)
    requires IsGrid(b) && Oriented(p) && Square(p.matrix)
    ensures Oriented(after) && Square(after.matrix)
    ensures after == p || !Collides(after, b)
  {
    RotationKeepsOrientation(p);
    if kicks == [] then p
    else
      var turned := QuarterTurn(p, kicks[0]);
      MovedIsOriented(p.(matrix := Rotated(p.matrix)), turned.x, turned.y);
      if !Collides(turned, b) then turned else Kicked(p, b, kicks[1..])
  }

  /** tryRotate */
  ghost function RotationTried(g: Game): (after: Game)
    requires Inv(g)
    ensures Inv(after)
  {
    g.(current := Kicked(g.current, g.board, KICKS))
  }

  /** The kick that is taken is the first one that fits; the piece stays as it is only when none does. */
  lemma {:induction false} KickTaken(p: Piece, b: Grid, kicks: seq<int>) returns (i: nat)
    requires IsGrid(b) && Oriented(p) && Square(p.matrix)
    ensures i <= |kicks|
    ensures forall j | 0 <= j < i :: Collides(QuarterTurn(p, kicks[j]), b)
    ensures if i < |kicks|
            then !Collides(QuarterTurn(p, kicks[i]), b) && Kicked(p, b, kicks) == QuarterTurn(p, kicks[i])
            else Kicked(p, b, kicks) == p
  {
    hide Collides, Oriented, QuarterTurn;
    RotationKeepsOrientation(p);
    if kicks == [] {
      i := 0;
    } else if !Collides(QuarterTurn(p, kicks[0]), b) {
      i := 0;
    } else {
      i := KickTaken(p, b, kicks[1..]);
      i := i + 1;
      assert forall j | 0 < j < i :: kicks[j] == kicks[1..][j - 1];
    }
  }

  /** restartGame, with the seed taken from the room or the player. */
  ghost function Restarted(g: Game, seed: Word): (after: Game)
    ensures Inv(after)
  {
    BlankBoardIsSound();
    var state := NextRand(seed);
    Spawned(Game(Blank(ROWS), g.current, PieceFor(state), 0, 0, 1, NORMAL_DROP_MS,
                 false, false, false, g.gameStarted, state))
  }

  lemma BlankBoardIsSound()
    ensures IsGrid(Blank(ROWS)) && forall row | row in Blank(ROWS) :: !Full(row)
  {
    BlankIsNotFull();
  }

  /** startGame */
  ghost function Started(g: Game, seed: Word): (after: Game)
    requires Inv(g)
    ensures Inv(after)
  {
    if g.gameStarted then g
    else
      var begun := g.(gameStarted := true);
      if g.gameOver then Restarted(begun, seed)
      else begun.(running := true, paused := false)
  }

  /** pauseGame */
  ghost function PauseToggled(g: Game): (after: Game)
    requires Inv(g)
    ensures Inv(after)
  {
    if !g.running || g.gameOver then g else g.(paused := !g.paused)
  }

  // ---------------------------------------------------------------------------
  // Games
  // ---------------------------------------------------------------------------

  /** Everything the page's handlers do to the game. The timer's tick is Move(0, 1); the restart key
      and the agent's takeover are short runs of these. */
  datatype Action =
    | Move(dx: int, dy: int)
    | Rotate
    | HardDrop
    | Restart(seed: Word)
    | Start(seed: Word)
    | Pause
    | Unpause
    | ForgetStart

  ghost function Step(g: Game, a: Action): (after: Game)
    requires Inv(g)
    ensures Inv(after)
  {
    match a
    case Move(dx, dy) => Moved(g, dx, dy)
    case Rotate => RotationTried(g)
    case HardDrop => Dropped(g)
    case Restart(seed) => Restarted(g, seed)
    case Start(seed) => Started(g, seed)
    case Pause => PauseToggled(g)
    case Unpause => g.(paused := false)
    case ForgetStart => g.(gameStarted := false)
  }

  ghost function Run(g: Game, actions: seq<Action>): (after: Game)
    requires Inv(g)
    ensures Inv(after)
  {
    if actions == [] then g
    else Step(Run(g, actions[..|actions| - 1]), actions[|actions| - 1])
  }

  /** The actions by which an agent takes the game over. */
  function TakeoverActions(g: Game, seed: Word): seq<Action> {
    if g.gameOver then [Restart(seed), ForgetStart, Start(seed)]
    else (if g.paused then [Unpause] else []) + (if !g.running then [ForgetStart, Start(seed)] else [])
  }

  /** Where they lead: the game that goes on, or a new one, is being played. */
  lemma TakeoverRun(g: Game, seed: Word)
    requires Inv(g)
    ensures var after := Run(g, TakeoverActions(g, seed));
            var base := if g.gameOver then Restarted(g, seed) else g;
            && after == base.(running := true, paused := false, gameStarted := base.running ==> base.gameStarted)
            && Playing(after)
  {
    hide Run, Step, Inv, Restarted;
    if g.gameOver {
      RestartFits(g, seed);
      RunOne(g, Restart(seed));
      RestartStep(g, seed);
      RunTwo(g, [Restart(seed)], ForgetStart, Start(seed));
      assert [Restart(seed)] + [ForgetStart, Start(seed)] == TakeoverActions(g, seed);
      StartAgain(Restarted(g, seed), seed);
    } else {
      var first := if g.paused then [Unpause] else [];
      RunNone(g);
      RunOne(g, Unpause);
      UnpauseStep(g);
      if g.running {
        assert first + [] == first;
      } else {
        RunTwo(g, first, ForgetStart, Start(seed));
        StartAgain(g.(paused := false), seed);
      }
    }
  }

  lemma RestartStep(g: Game, seed: Word)
    requires Inv(g)
    ensures Step(g, Restart(seed)) == Restarted(g, seed)
  {
  }

  lemma UnpauseStep(g: Game)
    requires Inv(g)
    ensures Step(g, Unpause) == g.(paused := false) && Inv(g.(paused := false))
  {
  }

  lemma StartAgain(g: Game, seed: Word)
    requires Inv(g) && !g.gameOver
    ensures Step(Step(g, ForgetStart), Start(seed)) == g.(gameStarted := true, running := true, paused := false)
  {
    hide Sound, Oriented, Collides;
  }

  lemma RunNone(g: Game)
    requires Inv(g)
    ensures Run(g, []) == g
  {
  }

  lemma RunOne(g: Game, a: Action)
    requires Inv(g)
    ensures Run(g, [a]) == Step(g, a)
  {
    hide Step, Inv;
    assert [a][..0] == [];
  }

  lemma RunTwo(g: Game, actions: seq<Action>, a: Action, b: Action)
    requires Inv(g)
    ensures Run(g, actions + [a, b]) == Step(Step(Run(g, actions), a), b)
  {
    hide Step, Inv;
    assert (actions + [a, b])[..|actions| + 1] == actions + [a];
    assert (actions + [a])[..|actions|] == actions;
  }

  /** The action begins a new game. */
  predicate Resets(g: Game, a: Action) {
    a.Restart? || (a.Start? && !g.gameStarted && g.gameOver)
  }

  /** The piece an action locks, if it locks one. */
  ghost function LockedPieces(g: Game, a: Action): (pieces: seq<Piece>)
    requires Inv(g)
    ensures |pieces| <= 1
    ensures forall p | p in pieces :: Oriented(p) && Square(p.matrix) && !Collides(p, g.board)
  {
    if !Playing(g) then []
    else
      match a
      case Move(dx, dy) =>
        if dy == 1 && Collides(Shifted(g.current, dx, dy), g.board) then [g.current] else []
      case HardDrop =>
        MovedIsOriented(g.current, g.current.x, Landing(g.current, g.board).y);
        [Landing(g.current, g.board)]
      case _ => []
  }

  ghost function VisibleCells(pieces: seq<Piece>): nat
    requires forall p | p in pieces :: Square(p.matrix)
  {
    if pieces == [] then 0 else |Visible(pieces[0])| + VisibleCells(pieces[1..])
  }

  /** The pieces locked since the last restart. */
  ghost function PiecesLocked(g: Game, actions: seq<Action>): (pieces: seq<Piece>)
    requires Inv(g)
    ensures forall p | p in pieces :: Oriented(p) && Square(p.matrix)
  {
    if actions == [] then []
    else
      var n := |actions| - 1;
      var before := Run(g, actions[..n]);
      if Resets(before, actions[n]) then []
      else PiecesLocked(g, actions[..n]) + LockedPieces(before, actions[n])
  }

  // ---------------------------------------------------------------------------
  // One lock
  // ---------------------------------------------------------------------------

  /** Locking is merging, clearing and dealing; spawnPiece does not change what clearLines computed. */
  lemma LockIsClearThenDeal(g: Game)
    requires Inv(g) && !g.gameOver
    ensures var swept := LinesCleared(g.(board := Merge(g.board, g.current)));
            var after := Locked(g);
            && after.board == swept.board == Cleared(Merge(g.board, g.current))
            && after.lines == swept.lines && after.score == swept.score
  {
  }

  /** A lock completes at most four rows. */
  lemma FewRowsCompleted(g: Game)
    requires Inv(g) && !g.gameOver
    ensures FullCount(Merge(g.board, g.current)) <= 4
  {
    OrientedHasFourCells(g.current);
    AtMostFourRows(g.board, g.current);
  }

  /** Hence the score grows by the table's entry: the fallback gain is never used; level
      and drop interval follow from the lines. */
  lemma LockScores(g: Game)
    requires Inv(g) && !g.gameOver
    ensures var after := Locked(g);
            var n := after.lines - g.lines;
            && n == FullCount(Merge(g.board, g.current))
            && 0 <= n <= 4
            && after.score == g.score + [0, 100, 300, 500, 800][n] * g.level
            && after.level == after.lines / 10 + 1
            && after.dropInterval == if 1700 - 55 * (after.level - 1) < 420 then 420 else 1700 - 55 * (after.level - 1)
  {
    FewRowsCompleted(g);
    LockIsClearThenDeal(g);
  }

  /** The cells on the board and in cleared rows grow by exactly the visible cells of the locked piece. */
  lemma LockConserves(g: Game)
    requires Inv(g) && !g.gameOver
    ensures var after := Locked(g);
            COLS * after.lines + |Filled(after.board)| == COLS * g.lines + |Filled(g.board)| + |Visible(g.current)|
  {
    MergeFillsEmptyCells(g.board, g.current);
    ClearingConserves(Merge(g.board, g.current));
    LockScores(g);
    LockIsClearThenDeal(g);
  }

  /** A new game starts with an empty board and a piece that fits: a restart never ends the game. */
  lemma RestartFits(g: Game, seed: Word)
    ensures var after := Restarted(g, seed);
            && !after.gameOver && !after.running && !after.paused && after.gameStarted == g.gameStarted
            && after.lines == after.score == 0 && after.level == 1 && after.dropInterval == 1700
            && |Filled(after.board)| == 0
            && after.prng == Draws(2, seed)
            && after.current == PieceFor(Draws(1, seed)) && after.next == PieceFor(Draws(2, seed))
  {
    var after := Restarted(g, seed);
    assert Draws(1, seed) == NextRand(Draws(0, seed)) && Draws(2, seed) == NextRand(Draws(1, seed));
    assert after.board == Blank(ROWS);
    assert Filled(after.board) == {};
    var p := PieceFor(NextRand(seed));
    ShapeCells(p.kind);
    forall r, c | Covers(p, r, c) ensures !Blocked(Blank(ROWS), r, c) {
    }
  }

  // ---------------------------------------------------------------------------
  // One action
  // ---------------------------------------------------------------------------

  /** Some cell of the piece, moved by (dx, dy), would be beside or below the field or on a block. */
  predicate Obstructed(b: Grid, p: Piece, dx: int, dy: int)
    requires IsGrid(b) && Square(p.matrix)
  {
    exists y, x | 0 <= y < |p.matrix| && 0 <= x < |p.matrix| && p.matrix[y][x] ::
      var r, c := p.y + dy + y, p.x + dx + x;
      c < 0 || c >= 10 || r >= 20 || (r >= 0 && b[r][c] != Empty)
  }

  lemma ObstructedCollides(b: Grid, p: Piece, dx: int, dy: int)
    requires IsGrid(b) && Square(p.matrix)
    ensures Collides(Shifted(p, dx, dy), b) <==> Obstructed(b, p, dx, dy)
    ensures Obstructed(b, p, dx, dy) <==> exists r, c :: Covers(p, r, c) && Blocked(b, r + dy, c + dx)
  {
    var moved := Shifted(p, dx, dy);
    CollidesSpelled(moved, b);
    if r, c :| Covers(p, r, c) && Blocked(b, r + dy, c + dx) {
      assert p.matrix[r - p.y][c - p.x];
    }
    if y, x :| 0 <= y < |p.matrix| && 0 <= x < |p.matrix| && p.matrix[y][x]
               && Blocked(b, p.y + y + dy, p.x + x + dx) {
      assert Covers(p, p.y + y, p.x + x);
    }
  }

  /** A move adds dx to the column and dy to the row, and changes nothing else, where nothing is in the way. Else the
      piece stays; downwards it locks. */
  lemma MoveAdds(g: Game, dx: int, dy: int)
    requires Inv(g)
    ensures !g.running || g.paused || g.gameOver ==> Moved(g, dx, dy) == g
    ensures Playing(g) && !Obstructed(g.board, g.current, dx, dy) ==>
              Moved(g, dx, dy) == g.(current := g.current.(x := g.current.x + dx, y := g.current.y + dy))
    ensures Playing(g) && Obstructed(g.board, g.current, dx, dy) && dy != 1 ==> Moved(g, dx, dy) == g
    ensures Playing(g) && Obstructed(g.board, g.current, dx, dy) && dy == 1 ==> Moved(g, dx, dy) == Locked(g)
  {
    ObstructedCollides(g.board, g.current, dx, dy);
    hide Collides, Obstructed, Locked, Oriented;
  }

  /** A free move to the left takes the piece one column down in number, and one to the right then takes it back. */
  lemma LeftThenRight(g: Game)
    requires Inv(g) && Playing(g) && !Obstructed(g.board, g.current, -1, 0)
    ensures Moved(g, -1, 0) == g.(current := g.current.(x := g.current.x - 1))
    ensures Moved(Moved(g, -1, 0), 1, 0) == g
  {
    MoveAdds(g, -1, 0);
    var left := Moved(g, -1, 0);
    ObstructedCollides(left.board, left.current, 1, 0);
    assert Shifted(left.current, 1, 0) == g.current;
    MoveAdds(left, 1, 0);
  }

  /** q is p turned clockwise and moved dx to the right: row y of the shape has become column n - 1 - y, and the cells
      covered on the plane have turned with it. */
  ghost predicate TurnedBy(p: Piece, q: Piece, dx: int)
    requires Square(p.matrix)
  {
    var n := |p.matrix|;
    && q.kind == p.kind && q.x == p.x + dx && q.y == p.y && |q.matrix| == n && Square(q.matrix)
    && (forall y, x | 0 <= y < n && 0 <= x < n :: q.matrix[x][n - 1 - y] == p.matrix[y][x])
    && (forall r, c :: Covers(p, r, c) <==> Covers(q, p.y + (c - p.x), p.x + dx + n - 1 - (r - p.y)))
  }

  /** Some cell of the piece, turned and moved dx to the right, would be where no piece may be. */
  predicate TurnObstructed(b: Grid, p: Piece, dx: int)
    requires IsGrid(b) && Square(p.matrix)
  {
    exists y, x | 0 <= y < |p.matrix| && 0 <= x < |p.matrix| && p.matrix[y][x] ::
      Blocked(b, p.y + x, p.x + dx + |p.matrix| - 1 - y)
  }

  /** The piece stands turned at the i-th kick, which is the first that fits; or, at the end of the kicks, as it was. */
  ghost predicate TurnTaken(before: Game, after: Game, i: nat)
    requires Inv(before) && i <= 5
  {
    var p, kicks := before.current, [0, -1, 1, -2, 2];
    && after == before.(current := after.current)
    && (forall j | 0 <= j < i :: TurnObstructed(before.board, p, kicks[j]))
    && if i == 5 then after.current == p
       else !TurnObstructed(before.board, p, kicks[i]) && TurnedBy(p, after.current, kicks[i])
  }

  lemma TurnIsTurned(p: Piece, dx: int)
    requires Square(p.matrix)
    ensures TurnedBy(p, QuarterTurn(p, dx), dx)
  {
    var q, n := QuarterTurn(p, dx), |p.matrix|;
    TurnsClockwise(p.matrix);
    forall r, c ensures Covers(p, r, c) <==> Covers(q, p.y + (c - p.x), p.x + dx + n - 1 - (r - p.y)) {
      var y, x := r - p.y, c - p.x;
      if 0 <= y < n && 0 <= x < n { assert q.matrix[x][n - 1 - y] == p.matrix[y][x]; }
    }
  }

  /** Where a cell of the turned piece was before. */
  lemma TurnedFrom(p: Piece, dx: int, r: int, c: int)
    requires Square(p.matrix) && Covers(QuarterTurn(p, dx), r, c)
    ensures var y, x := p.x + dx + |p.matrix| - 1 - c, r - p.y;
            0 <= y < |p.matrix| && 0 <= x < |p.matrix| && p.matrix[y][x]
  {
    TurnsClockwise(p.matrix);
    var y, x := p.x + dx + |p.matrix| - 1 - c, r - p.y;
    assert Rotated(p.matrix)[x][|p.matrix| - 1 - y] == p.matrix[y][x];
  }

  lemma TurnedTo(p: Piece, dx: int, y: int, x: int)
    requires Square(p.matrix) && 0 <= y < |p.matrix| && 0 <= x < |p.matrix| && p.matrix[y][x]
    ensures Covers(QuarterTurn(p, dx), p.y + x, p.x + dx + |p.matrix| - 1 - y)
  {
    TurnsClockwise(p.matrix);
    assert Rotated(p.matrix)[x][|p.matrix| - 1 - y] == p.matrix[y][x];
  }

  lemma TurnCollides(p: Piece, dx: int, b: Grid)
    requires Square(p.matrix) && IsGrid(b)
    ensures Collides(QuarterTurn(p, dx), b) <==> TurnObstructed(b, p, dx)
  {
    hide QuarterTurn, Covers, Blocked;
    var q, n := QuarterTurn(p, dx), |p.matrix|;
    if r, c :| Covers(q, r, c) && Blocked(b, r, c) {
      TurnedFrom(p, dx, r, c);
      var y, x := p.x + dx + n - 1 - c, r - p.y;
      assert p.matrix[y][x] && p.y + x == r && p.x + dx + n - 1 - y == c;
    }
    if y, x :| 0 <= y < n && 0 <= x < n && p.matrix[y][x] && Blocked(b, p.y + x, p.x + dx + n - 1 - y) {
      TurnedTo(p, dx, y, x);
    }
  }

  /** tryRotate turns clockwise, at the first kick that fits. */
  lemma RotationTurns(g: Game) returns (i: nat)
    requires Inv(g)
    ensures i <= 5 && TurnTaken(g, RotationTried(g), i)
  {
    hide Kicked, Collides, TurnObstructed, TurnedBy, Oriented, QuarterTurn, Full, NewPiece;
    var p, kicks := g.current, [0, -1, 1, -2, 2];
    i := KickTaken(p, g.board, KICKS);
    assert kicks == KICKS;
    forall j | 0 <= j < 5 ensures Collides(QuarterTurn(p, kicks[j]), g.board)
        <==> TurnObstructed(g.board, p, kicks[j]) {
      TurnCollides(p, kicks[j], g.board);
    }
    if i < 5 { TurnIsTurned(p, kicks[i]); }
  }

  /** spawnPiece: what was next comes into play; the next one is drawn by one step of the generator and stands centred
      one row above the field; the game is over exactly when the piece in play is obstructed. */
  lemma SpawnDraws(g: Game)
    requires Sound(g) && !g.gameOver
    ensures var after := Spawned(g);
            && after.current == g.next && after.prng == (1664525 * g.prng + 1013904223) % 0x1_0000_0000
            && after.next.kind == [I, O, T, S, Z, J, L][7 * after.prng / 0x1_0000_0000]
            && after.next.matrix == Shape(after.next.kind)
            && after.next.x == (if after.next.kind == O then 4 else 3) && after.next.y == -1
            && (after.gameOver <==> Obstructed(g.board, g.next, 0, 0))
            && (after.running <==> g.running && !after.gameOver)
            && (after.board, after.score, after.lines, after.level, after.dropInterval, after.paused, after.gameStarted)
               == (g.board, g.score, g.lines, g.level, g.dropInterval, g.paused, g.gameStarted)
  {
    NewPieceIsOriented(g.next.kind);
    NextRandIsLinear(g.prng);
    ObstructedCollides(g.board, g.next, 0, 0);
    assert Shifted(g.next, 0, 0) == g.next;
    hide Collides, Obstructed, NextRand, Oriented;
    var state: Word := NextRand(g.prng);
    ShapeCells(KindAt(PieceIndex(state)));
  }

  // ---------------------------------------------------------------------------
  // Whole games
  // ---------------------------------------------------------------------------

  ghost predicate Balanced(before: Game, after: Game, locked: nat) 
    requires IsGrid(before.board) && IsGrid(after.board)
  {
    && COLS * after.lines + |Filled(after.board)| == COLS * before.lines + |Filled(before.board)| + locked
    && after.score >= before.score && before.lines <= after.lines <= before.lines + 4
  }

  ghost predicate Fresh(g: Game)
    requires IsGrid(g.board)
  {
    g.lines == g.score == |Filled(g.board)| == 0
  }

  lemma LockBalances(g: Game)
    requires Inv(g) && !g.gameOver
    ensures Balanced(g, Locked(g), |Visible(g.current)|)
  {
    LockConserves(g);
    LockScores(g);
    GainIsNonNegative(Locked(g).lines - g.lines, g.level);
  }

  lemma MoveBalances(g: Game, dx: int, dy: int)
    requires Inv(g)
    ensures Balanced(g, Moved(g, dx, dy), VisibleCells(LockedPieces(g, Move(dx, dy))))
  {
    if LockedPieces(g, Move(dx, dy)) != [] {
      LockBalances(g);
    }
  }

  lemma DropIsLock(g: Game)
    requires Inv(g) && Playing(g)
    ensures var fallen := g.(current := Landing(g.current, g.board));
            Inv(fallen) && Dropped(g) == Locked(fallen) && LockedPieces(g, HardDrop) == [fallen.current]
  {
    MovedIsOriented(g.current, g.current.x, Landing(g.current, g.board).y);
  }

  lemma IdleDrop(g: Game)
    requires Inv(g) && !Playing(g)
    ensures Dropped(g) == g
  {
  }

  lemma DropBalances(g: Game)
    requires Inv(g)
    ensures Balanced(g, Dropped(g), VisibleCells(LockedPieces(g, HardDrop)))
  {
    if Playing(g) {
      DropIsLock(g);
      var fallen := g.(current := Landing(g.current, g.board));
      LockBalances(fallen);
      hide Locked, Dropped, Landing, LockedPieces, Filled, Visible;
    }
  }

  lemma StepAccounting(g: Game, a: Action)
    requires Inv(g)
    ensures if Resets(g, a) then Fresh(Step(g, a))
            else Balanced(g, Step(g, a), VisibleCells(LockedPieces(g, a)))
  {
    match a
    case Restart(seed) => RestartFits(g, seed);
    case Start(seed) => if Resets(g, a) { RestartFits(g.(gameStarted := true), seed); }
    case Move(dx, dy) => MoveBalances(g, dx, dy);
    case HardDrop => DropBalances(g);
    case Rotate =>
    case Pause =>
    case Unpause =>
    case ForgetStart =>
  }

  lemma {:induction false} VisibleCellsConcat(a: seq<Piece>, b: seq<Piece>)
    requires forall p | p in a + b :: Square(p.matrix)
    ensures forall p | p in a :: p in a + b
    ensures forall p | p in b :: p in a + b
    ensures VisibleCells(a + b) == VisibleCells(a) + VisibleCells(b)
  {
    if a == [] {
      assert a + b == b;
    } else {
      assert (a + b)[1..] == a[1..] + b;
      VisibleCellsConcat(a[1..], b);
    }
  }

  lemma {:induction false} VisibleCellsBound(pieces: seq<Piece>)
    requires forall p | p in pieces :: Oriented(p) && Square(p.matrix)
    ensures VisibleCells(pieces) <= 4 * |pieces|
  {
    if pieces != [] {
      VisibleAtMostFour(pieces[0]);
      VisibleCellsBound(pieces[1..]);
    }
  }

  /** Conservation over whole games: ten cells for every cleared line and the cells still on the board are
      together the visible cells of the pieces locked since the last restart. */
  lemma {:induction false} GameConserves(g: Game, seed: Word, actions: seq<Action>)
    ensures var start := Restarted(g, seed);
            var now := Run(start, actions);
            var pieces := PiecesLocked(start, actions);
            && COLS * now.lines + |Filled(now.board)| == VisibleCells(pieces)
            && VisibleCells(pieces) <= 4 * |pieces|
  {
    var start := Restarted(g, seed);
    if actions == [] {
      RestartFits(g, seed);
    } else {
      var n := |actions| - 1;
      GameConserves(g, seed, actions[..n]);
      var before := Run(start, actions[..n]);
      StepAccounting(before, actions[n]);
      if !Resets(before, actions[n]) {
        VisibleCellsConcat(PiecesLocked(start, actions[..n]), LockedPieces(before, actions[n]));
      }
    }
    VisibleCellsBound(PiecesLocked(start, actions));
  }

  /** The generator and the two pieces in hand are fixed by the seed and the number of locked pieces. */
  ghost predicate Dealt(g: Game, seed: Word, locked: nat) {
    && g.prng == Draws(locked + 2, seed)
    && g.current.kind == PieceFor(Draws(locked + 1, seed)).kind
    && g.next == PieceFor(Draws(locked + 2, seed))
  }

  lemma {:induction false} KickKeepsKind(p: Piece, b: Grid, kicks: seq<int>)
    requires IsGrid(b) && Oriented(p) && Square(p.matrix)
    ensures Kicked(p, b, kicks).kind == p.kind
  {
    if kicks != [] {
      RotationKeepsOrientation(p);
      KickKeepsKind(p, b, kicks[1..]);
    }
  }

  /** From g to h nothing was dealt, or one piece was. */
  ghost predicate DealsOn(g: Game, h: Game, pieces: nat) {
    if pieces == 0 then h.prng == g.prng && h.current.kind == g.current.kind && h.next == g.next
    else h.prng == NextRand(g.prng) && h.current == g.next && h.next == PieceFor(h.prng)
  }

  lemma MoveDeals(g: Game, dx: int, dy: int)
    requires Inv(g)
    ensures DealsOn(g, Moved(g, dx, dy), |LockedPieces(g, Move(dx, dy))|)
  {
  }

  lemma DropDeals(g: Game)
    requires Inv(g)
    ensures DealsOn(g, Dropped(g), |LockedPieces(g, HardDrop)|)
  {
  }

  lemma StepDeals(g: Game, a: Action)
    requires Inv(g) && !Resets(g, a)
    ensures DealsOn(g, Step(g, a), |LockedPieces(g, a)|)
  {
    match a
    case Rotate => KickKeepsKind(g.current, g.board, KICKS);
    case Move(dx, dy) => MoveDeals(g, dx, dy);
    case HardDrop => DropDeals(g);
    case Restart(_) =>
    case Start(_) =>
    case Pause =>
    case Unpause =>
    case ForgetStart =>
  }

  lemma DealtAdvances(g: Game, h: Game, pieces: nat, seed: Word, locked: nat)
    requires Dealt(g, seed, locked) && DealsOn(g, h, pieces) && pieces <= 1
    ensures Dealt(h, seed, locked + pieces)
  {
    assert Draws(locked + 3, seed) == NextRand(Draws(locked + 2, seed));
  }

  lemma StepKeepsDealt(g: Game, a: Action, seed: Word, locked: nat)
    requires Inv(g) && Dealt(g, seed, locked) && !Resets(g, a)
    ensures Dealt(Step(g, a), seed, locked + |LockedPieces(g, a)|)
  {
    hide *;
    StepDeals(g, a);
    DealtAdvances(g, Step(g, a), |LockedPieces(g, a)|, seed, locked);
  }

  ghost predicate NoReset(g: Game, actions: seq<Action>)
    requires Inv(g)
  {
    forall i | 0 <= i < |actions| :: !Resets(Run(g, actions[..i]), actions[i])
  }

  lemma NoResetBefore(g: Game, actions: seq<Action>)
    requires Inv(g) && NoReset(g, actions) && actions != []
    ensures var n := |actions| - 1;
            NoReset(g, actions[..n]) && !Resets(Run(g, actions[..n]), actions[n])
  {
    hide Resets, Step, Inv;
    var n := |actions| - 1;
    forall i | 0 <= i < n ensures !Resets(Run(g, actions[..n][..i]), actions[..n][i]) {
      assert actions[..n][..i] == actions[..i];
    }
  }

  lemma EmptyRun(g: Game)
    requires Inv(g)
    ensures Run(g, []) == g && PiecesLocked(g, []) == []
  {
  }

  lemma LastStep(g: Game, actions: seq<Action>)
    requires Inv(g) && actions != []
    ensures var n := |actions| - 1;
            var before := Run(g, actions[..n]);
            && Run(g, actions) == Step(before, actions[n])
            && PiecesLocked(g, actions)
               == if Resets(before, actions[n]) then []
                  else PiecesLocked(g, actions[..n]) + LockedPieces(before, actions[n])
  {
    hide Step, LockedPieces;
  }

  lemma {:induction false} RunDeals(g: Game, seed: Word, actions: seq<Action>)
    requires Inv(g) && Dealt(g, seed, 0) && NoReset(g, actions)
    ensures Dealt(Run(g, actions), seed, |PiecesLocked(g, actions)|)
  {
    hide *;
    if actions == [] {
      EmptyRun(g);
    } else {
      var n := |actions| - 1;
      NoResetBefore(g, actions);
      RunDeals(g, seed, actions[..n]);
      StepKeepsDealt(Run(g, actions[..n]), actions[n], seed, |PiecesLocked(g, actions[..n])|);
      LastStep(g, actions);
    }
  }

  /** Fairness between the players of a room: games begun from the same seed hand out the same pieces in the
      same order, however differently they are played. */
  lemma SameSeedSamePieces(g: Game, h: Game, seed: Word, mine: seq<Action>, theirs: seq<Action>)
    ensures var a, b := Restarted(g, seed), Restarted(h, seed);
            NoReset(a, mine) && NoReset(b, theirs) && |PiecesLocked(a, mine)| == |PiecesLocked(b, theirs)| ==>
              var now, other := Run(a, mine), Run(b, theirs);
              now.current.kind == other.current.kind && now.next == other.next && now.prng == other.prng
  {
    hide NoReset, Run, PiecesLocked, Restarted;
    RestartFits(g, seed);
    RestartFits(h, seed);
    var a, b := Restarted(g, seed), Restarted(h, seed);
    if NoReset(a, mine) && NoReset(b, theirs) {
      RunDeals(a, seed, mine);
      RunDeals(b, seed, theirs);
    }
  }

  // ---------------------------------------------------------------------------
  // Hard drop and soft drops
  // ---------------------------------------------------------------------------

  ghost function SoftDrops(g: Game, n: nat): (after: Game)
    requires Inv(g)
    ensures Inv(after)
  {
    if n == 0 then g else Moved(SoftDrops(g, n - 1), 0, 1)
  }

  lemma OneSoftDrop(g: Game)
    requires Inv(g) && Playing(g)
    ensures Moved(g, 0, 1) == if Collides(Below(g.current, 1), g.board) then Locked(g)
                              else g.(current := Below(g.current, 1))
  {
    assert Shifted(g.current, 0, 1) == Below(g.current, 1);
    hide Collides, Locked, Oriented;
  }

  lemma {:induction false} FallingStepByStep(g: Game, n: nat)
    requires Inv(g) && Playing(g)
    requires n <= Landing(g.current, g.board).y - g.current.y
    ensures SoftDrops(g, n) == g.(current := Below(g.current, n))
  {
    hide Collides, Locked, Oriented, Moved, Landing;
    if n != 0 {
      FallingStepByStep(g, n - 1);
      FreeFall(g.current, g.board, n);
      OneSoftDrop(SoftDrops(g, n - 1));
      assert Below(Below(g.current, n - 1), 1) == Below(g.current, n);
    }
  }

  lemma NextSoftDrop(g: Game, n: nat)
    requires Inv(g)
    ensures SoftDrops(g, n + 1) == Moved(SoftDrops(g, n), 0, 1)
  {
    hide Inv, Moved;
  }

  lemma LastSoftDrop(g: Game, n: nat)
    requires Inv(g) && Playing(g) && n == Landing(g.current, g.board).y - g.current.y
    ensures SoftDrops(g, n + 1) == Dropped(g)
  {
    var fallen := g.(current := Landing(g.current, g.board));
    hide Inv, Moved, Locked, Dropped, SoftDrops, Collides, Oriented;
    FallingStepByStep(g, n);
    DropIsLock(g);
    OneSoftDrop(fallen);
    NextSoftDrop(g, n);
  }

  /** A hard drop is the same as soft drops until the piece locks: the piece falls freely at first
      and the next soft drop locks it, with the same board, score, lines and pieces. */
  lemma HardDropIsSoftDrops(g: Game)
    requires Inv(g) && Playing(g)
    ensures var n := Landing(g.current, g.board).y - g.current.y;
            && (forall k: nat | k <= n :: SoftDrops(g, k) == g.(current := Below(g.current, k)))
            && SoftDrops(g, n + 1) == Dropped(g)
  {
    hide Moved, Locked, Dropped, SoftDrops, Collides, Oriented, Landing, Covers, Full;
    var n := Landing(g.current, g.board).y - g.current.y;
    forall k: nat | k <= n ensures SoftDrops(g, k) == g.(current := Below(g.current, k)) {
      FallingStepByStep(g, k);
    }
    LastSoftDrop(g, n);
  }
}
