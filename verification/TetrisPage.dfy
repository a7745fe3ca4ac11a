/** The script of the Tetris page (apps/tetris-web/web/tetris.html) as it runs: its global variables
    are the fields, its functions the methods. Each is proved to do what module Tetris says of it. */
module TetrisPage {
  import opened Board
  import opened PieceGenerator
  import opened Tetris

  class Page {
    var board: Grid
    var current: Piece
    var next: Piece
    var score: int
    var lines: int
    var level: int
    var dropInterval: int
    var running: bool
    var paused: bool
    var gameOver: bool
    var gameStarted: bool
    var prngState: Word

    ghost function State(): Game
      reads this
    {
      Game(board, current, next, score, lines, level, dropInterval,
           running, paused, gameOver, gameStarted, prngState)
    }

    /** The page as it is when its script has loaded: a first game is laid out but not started. */
    constructor (seedText: seq<bv16>)
      ensures Inv(State())
      ensures exists before: Game :: !before.gameStarted && State() == Restarted(before, SeedOf(seedText))
    {
      board, current, next := Blank(ROWS), NewPiece(I), NewPiece(I);
      score, lines, level, dropInterval := 0, 0, 1, NORMAL_DROP_MS;
      running, paused, gameOver, gameStarted := false, false, false, false;
      prngState := 1;
      new;
      ghost var before := State();
      RestartGame(seedText);
      assert State() == Restarted(before, SeedOf(seedText));
    }

    method SeedPieceRNG(seedText: seq<bv16>)
      modifies this`prngState
      ensures prngState == SeedOf(seedText)
    {
      prngState := Fnv1a32(seedText);
    }

    method AdvanceRand()
      modifies this`prngState
      ensures prngState == NextRand(old(prngState))
    {
      prngState := ToUint32(Imul(prngState, MULTIPLIER) + INCREMENT);
    }

    method RandomPiece() returns (p: Piece)
      modifies this`prngState
      ensures prngState == NextRand(old(prngState))
      ensures p == PieceFor(prngState)
    {
      AdvanceRand();
      var kind := KindAt(PieceIndex(prngState));
      p := Piece(kind, Shape(kind), (COLS - |Shape(kind)[0]|) / 2, -1);
    }

    method MergePiece()
      requires IsGrid(board) && Square(current.matrix) && !Collides(current, board)
      modifies this`board
      ensures board == Merge(old(board), current)
    {
      var m := current.matrix;
      for y := 0 to |m|
        invariant IsGrid(board)
        invariant forall r, c | 0 <= r < ROWS && 0 <= c < COLS ::
          board[r][c] == if Covers(current, r, c) && r < current.y + y then Block(current.kind) else old(board)[r][c]
      {
        for x := 0 to |m[y]|
          invariant IsGrid(board)
          invariant forall r, c | 0 <= r < ROWS && 0 <= c < COLS ::
            board[r][c] == if Covers(current, r, c) && (r < current.y + y || (r == current.y + y && c < current.x + x))
                           then Block(current.kind) else old(board)[r][c]
        {
          if !m[y][x] { continue; }
          var row, col := current.y + y, current.x + x;
          assert Covers(current, row, col) && !Blocked(old(board), row, col);
          if row >= 0 {
            board := board[row := board[row][col := Block(current.kind)]];
          }
        }
      }
      assert forall r | 0 <= r < ROWS :: board[r] == Merge(old(board), current)[r];
    }

    method ClearLines()
      requires IsGrid(board) && lines >= 0
      modifies this`board, this`lines, this`score, this`level, this`dropInterval
      ensures State() == LinesCleared(old(State()))
    {
      hide Cleared, FullCount, IsGrid;
      var cleared: nat;
      board, cleared := RemoveFullRows(board);
      if cleared > 0 {
        lines := lines + cleared;
        var table := [0, 100, 300, 500, 800];
        var gain := if cleared < |table| && table[cleared] != 0 then table[cleared] else cleared * 200;
        score := score + gain * level;
        level := lines / 10 + 1;
        dropInterval := NORMAL_DROP_MS - (level - 1) * DROP_STEP_MS;
        if dropInterval < FASTEST_DROP_MS { dropInterval := FASTEST_DROP_MS; }
      }
    }

    method SpawnPiece()
      requires Sound(State()) && !gameOver
      modifies this
      ensures State() == Spawned(old(State()))
    {
      hide NextRand, Full, Collides, Oriented, Shape;
      current := next;
      next := RandomPiece();
      NewPieceIsOriented(current.kind);
      var hit := Collide(current, board);
      if hit {
        running := false;
        gameOver := true;
      }
    }

    /** mergePiece, clearLines and spawnPiece in a row, as move and hardDrop call them. */
    method LockCurrent()
      requires Inv(State()) && !gameOver
      modifies this
      ensures State() == Locked(old(State()))
    {
      MergePiece();
      ClearedIsClean(board);
      GainIsNonNegative(FullCount(board), level);
      ClearLines();
      SpawnPiece();
    }

    method TryRotate()
      requires Inv(State())
      modifies this`current
      ensures State() == RotationTried(old(State()))
      ensures exists i | 0 <= i <= 5 :: TurnTaken(old(State()), State(), i)
    {
      ghost var turns := RotationTurns(State());
      TurnKick();
      assert TurnTaken(old(State()), State(), turns);
    }

    /** The loop over the kicks. */
    method TurnKick()
      requires Inv(State())
      modifies this`current
      ensures State() == RotationTried(old(State()))
    {
      hide Collides, Oriented, Covers, Full, NewPiece, DropInterval, IsRow;
      var original := current.matrix;
      var rotated := RotateMatrix(original);
      ghost var before := current;
      RotationKeepsOrientation(before);
      current := current.(matrix := rotated);
      var kicks := [0, -1, 1, -2, 2];
      for i := 0 to |kicks|
        invariant current == before.(matrix := rotated)
        invariant Kicked(before, board, KICKS) == Kicked(before, board, KICKS[i..])
      {
        var dx := kicks[i];
        current := current.(x := current.x + dx);
        var hit := Collide(current, board);
        if !hit { return; }
        current := current.(x := current.x - dx);
        assert KICKS[i..][1..] == KICKS[i + 1..];
      }
      current := current.(matrix := original);
    }

    method MoveBy(dx: int, dy: int)
      requires Inv(State())
      modifies this
      ensures State() == Moved(old(State()), dx, dy)
      ensures !old(Playing(State())) ==> State() == old(State())
      ensures old(Playing(State()) && !Obstructed(board, current, dx, dy)) ==>
                && current == old(current).(x := old(current).x + dx, y := old(current).y + dy)
                && State() == old(State()).(current := current)
      ensures old(Playing(State()) && Obstructed(board, current, dx, dy)) && dy != 1 ==> State() == old(State())
    {
      hide Obstructed, Collides, Locked, Oriented, Covers, Full, NewPiece, DropInterval, IsRow;
      MoveAdds(State(), dx, dy);
      if !running || paused || gameOver { return; }
      current := current.(x := current.x + dx, y := current.y + dy);
      var hit := Collide(current, board);
      if hit {
        current := current.(x := current.x - dx, y := current.y - dy);
        if dy == 1 {
          LockCurrent();
        }
      }
    }

    method HardDropPiece()
      requires Inv(State())
      modifies this
      ensures State() == Dropped(old(State()))
    {
      hide Collides, Locked, Oriented, Covers, Full, NewPiece, DropInterval, IsRow, Dropped, Landing;
      if !running || paused || gameOver {
        IdleDrop(State());
        return;
      }
      ghost var landed := Landing(current, board);
      var hit := Collide(current, board);
      while !hit
        invariant current == Below(old(current), current.y - old(current).y)
        invariant old(current).y <= current.y <= landed.y + 1
        invariant hit <==> current.y == landed.y + 1
        invariant State() == old(State()).(current := current)
        decreases landed.y + 1 - current.y
      {
        current := current.(y := current.y + 1);
        if current.y <= landed.y {
          FreeFall(old(current), board, current.y - old(current).y);
        } else {
          assert current == Below(landed, 1);
        }
        hit := Collide(current, board);
      }
      current := current.(y := current.y - 1);
      assert current == landed;
      DropIsLock(old(State()));
      LockCurrent();
    }

    method RestartGame(seedText: seq<bv16>)
      modifies this
      ensures State() == Restarted(old(State()), SeedOf(seedText))
    {
      hide NextRand, SeedOf, Full, Collides, Oriented, Shape, FnvHash, PieceIndex;
      board := Blank(ROWS);
      score, lines, level, dropInterval := 0, 0, 1, NORMAL_DROP_MS;
      running, paused, gameOver := false, false, false;
      SeedPieceRNG(seedText);
      next := RandomPiece();
      BlankBoardIsSound();
      SpawnPiece();
    }

    method StartGame(seedText: seq<bv16>)
      requires Inv(State())
      modifies this
      ensures State() == Started(old(State()), SeedOf(seedText))
      ensures old(gameStarted) ==> State() == old(State())
      ensures !old(gameStarted || gameOver) ==>
                State() == old(State()).(gameStarted := true, running := true, paused := false)
      ensures !old(gameStarted) && old(gameOver) ==>
                gameStarted && !gameOver && !running && !paused && score == lines == 0 && level == 1
    {
      RestartFits(State(), SeedOf(seedText));
      RestartFits(State().(gameStarted := true), SeedOf(seedText));
      hide Restarted;
      if gameStarted { return; }
      gameStarted := true;
      if gameOver {
        RestartGame(seedText);
        return;
      }
      if !running {
        running := true;
        paused := false;
      } else if paused {
        paused := false;
      }
    }

    method PauseGame()
      requires Inv(State())
      modifies this`paused
      ensures State() == PauseToggled(old(State()))
      ensures paused <==> if running && !gameOver then !old(paused) else old(paused)
    {
      if !running || gameOver { return; }
      paused := !paused;
    }

    /** What an agent's input does before its action: leave a finished, paused or idle game, by the restart, unpause
        and start that are needed. */
    method EnsureAgentPlayableState(seedText: seq<bv16>)
      requires Inv(State())
      modifies this
      ensures State() == Run(old(State()), TakeoverActions(old(State()), SeedOf(seedText)))
      ensures Playing(State())
    {
      hide Run, Full, Oriented, Collides, SeedOf;
      TakeoverRun(State(), SeedOf(seedText));
      if gameOver {
        RestartFits(State(), SeedOf(seedText));
        RestartGame(seedText);
        gameOver := false;
      }
      if paused { paused := false; }
      if !running {
        gameStarted := false;
        StartGame(seedText);
      }
    }
  }
}
