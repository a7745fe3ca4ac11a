/** The playing field of the Tetris page (apps/tetris-web/web/tetris.html): pieces,
    collisions, merging, full rows and rotation, with the loops that compute them. */
module Board {

  const COLS := 10
  const ROWS := 20

  datatype Kind = I | O | T | S | Z | J | L

  datatype Cell = Empty | Block(kind: Kind)

  type Row = seq<Cell>
  type Grid = seq<Row>
  type Matrix = seq<seq<bool>>

  /** A piece: its shape in its present orientation and the board position of the shape's corner.
      Rows above the board have negative numbers. */
  datatype Piece = Piece(kind: Kind, matrix: Matrix, x: int, y: int)

  predicate IsRow(row: Row) {
    |row| == COLS
  }

  predicate IsGrid(b: Grid) {
    |b| == ROWS && forall r | 0 <= r < ROWS :: IsRow(b[r])
  }

  predicate Square(m: Matrix) {
    forall y | 0 <= y < |m| :: |m[y]| == |m|
  }

  /** The piece covers row r and column c of the (unbounded) plane around the board. */
  predicate Covers(p: Piece, r: int, c: int)
    requires Square(p.matrix)
  {
    0 <= r - p.y < |p.matrix| && 0 <= c - p.x < |p.matrix| && p.matrix[r - p.y][c - p.x]
  }

  /** A cell where no part of a piece may be: beside or below the board, or on a block. */
  predicate Blocked(b: Grid, r: int, c: int)
    requires IsGrid(b)
  {
    c < 0 || c >= COLS || r >= ROWS || (r >= 0 && b[r][c] != Empty)
  }

  ghost predicate Collides(p: Piece, b: Grid)
    requires IsGrid(b) && Square(p.matrix)
  {
    exists r, c :: Covers(p, r, c) && Blocked(b, r, c)
  }

  /** Some filled cell of the shape lies beside or below the field or on a block; above the field it is free. */
  lemma CollidesSpelled(p: Piece, b: Grid)
    requires IsGrid(b) && Square(p.matrix)
    ensures Collides(p, b) <==> exists y, x | 0 <= y < |p.matrix| && 0 <= x < |p.matrix| && p.matrix[y][x] ::
              p.x + x < 0 || p.x + x >= 10 || p.y + y >= 20 || (p.y + y >= 0 && b[p.y + y][p.x + x] != Empty)
  {
    if y, x :| 0 <= y < |p.matrix| && 0 <= x < |p.matrix| && p.matrix[y][x]
               && (p.x + x < 0 || p.x + x >= 10 || p.y + y >= 20 || (p.y + y >= 0 && b[p.y + y][p.x + x] != Empty)) {
      assert Covers(p, p.y + y, p.x + x) && Blocked(b, p.y + y, p.x + x);
    }
    if r, c :| Covers(p, r, c) && Blocked(b, r, c) {
      assert p.matrix[r - p.y][c - p.x] && p.y + (r - p.y) == r && p.x + (c - p.x) == c;
    }
  }

  method Collide(p: Piece, b: Grid) returns (hit: bool)
    requires IsGrid(b) && Square(p.matrix)
    ensures hit <==> Collides(p, b)
  {
    for y := 0 to |p.matrix|
      invariant forall r, c :: Covers(p, r, c) && r < p.y + y ==> !Blocked(b, r, c)
    {
      for x := 0 to |p.matrix[y]|
        invariant forall r, c :: Covers(p, r, c) && r < p.y + y ==> !Blocked(b, r, c)
        invariant forall r, c :: Covers(p, r, c) && r == p.y + y && c < p.x + x ==> !Blocked(b, r, c)
      {
        if !p.matrix[y][x] { continue; }
        var nx, ny := p.x + x, p.y + y;
        assert Covers(p, ny, nx);
        if nx < 0 || nx >= COLS || ny >= ROWS { return true; }
        if ny >= 0 && b[ny][nx] != Empty { return true; }
      }
    }
    return false;
  }

  // ---------------------------------------------------------------------------
  // Merging a piece into the board
  // ---------------------------------------------------------------------------

  function Merge(b: Grid, p: Piece): (merged: Grid)
    requires IsGrid(b) && Square(p.matrix)
    ensures IsGrid(merged)
  {
    seq(ROWS, r requires 0 <= r < ROWS =>
      seq(COLS, c requires 0 <= c < COLS => if Covers(p, r, c) then Block(p.kind) else b[r][c]))
  }

  /** A cell of the field takes the piece's kind exactly where the shape, laid at the piece's place, is filled. */
  lemma MergeSpelled(b: Grid, p: Piece, r: int, c: int)
    requires IsGrid(b) && Square(p.matrix) && 0 <= r < 20 && 0 <= c < 10
    ensures Merge(b, p)[r][c]
            == if exists y, x | 0 <= y < |p.matrix| && 0 <= x < |p.matrix| ::
                    p.matrix[y][x] && p.y + y == r && p.x + x == c
               then Block(p.kind) else b[r][c]
  {
    if Covers(p, r, c) {
      assert p.matrix[r - p.y][c - p.x] && p.y + (r - p.y) == r && p.x + (c - p.x) == c;
    }
  }

  function Filled(b: Grid): set<(int, int)>
    requires IsGrid(b)
  {
    set r, c | 0 <= r < ROWS && 0 <= c < COLS && b[r][c] != Empty :: (r, c)
  }

  /** The cells of a piece that lie on the board: those above the top row are lost when it locks. */
  function Visible(p: Piece): set<(int, int)>
    requires Square(p.matrix)
  {
    set r, c | 0 <= r < ROWS && 0 <= c < COLS && Covers(p, r, c) :: (r, c)
  }

  /** Locking a piece that does not collide writes only empty cells inside the board:
      the filled cells afterwards are the old ones, as they were, and, disjointly, the piece's visible ones. */
  lemma MergeFillsEmptyCells(b: Grid, p: Piece)
    requires IsGrid(b) && Square(p.matrix) && !Collides(p, b)
    ensures Filled(b) !! Visible(p)
    ensures Filled(Merge(b, p)) == Filled(b) + Visible(p)
    ensures |Filled(Merge(b, p))| == |Filled(b)| + |Visible(p)|
    ensures forall cell | cell in Filled(b) :: Merge(b, p)[cell.0][cell.1] == b[cell.0][cell.1]
    ensures forall cell | cell in Visible(p) :: Merge(b, p)[cell.0][cell.1] == Block(p.kind)
  {
    forall cell | cell in Visible(p) ensures cell !in Filled(b) {
      assert Covers(p, cell.0, cell.1) && !Blocked(b, cell.0, cell.1);
    }
    var merged := Merge(b, p);
    forall r, c | 0 <= r < ROWS && 0 <= c < COLS
      ensures (r, c) in Filled(merged) <==> (r, c) in Filled(b) + Visible(p)
    {
    }
    assert Filled(merged) == Filled(b) + Visible(p);
  }

  // ---------------------------------------------------------------------------
  // Full rows
  // ---------------------------------------------------------------------------

  predicate Full(row: Row) {
    Empty !in row
  }

  function FullCount(rows: seq<Row>): nat {
    if rows == [] then 0 else (if Full(rows[0]) then 1 else 0) + FullCount(rows[1..])
  }

  /** The rows that are not full, in their order. */
  function NonFull(rows: seq<Row>): seq<Row> {
    if rows == [] then [] else (if Full(rows[0]) then [] else [rows[0]]) + NonFull(rows[1..])
  }

  function BlankRow(): Row {
    seq(COLS, _ => Empty)
  }

  function Blank(n: nat): (rows: seq<Row>)
    ensures |rows| == n && forall row | row in rows :: row == BlankRow()
  {
    seq(n, _ => BlankRow())
  }

  /** The board after clearing: empty rows on top, then the rows that were not full. */
  function Cleared(b: Grid): Grid {
    Blank(FullCount(b)) + NonFull(b)
  }

  lemma {:induction false} FullCountBounds(rows: seq<Row>)
    ensures FullCount(rows) + |NonFull(rows)| == |rows|
    ensures forall row | row in NonFull(rows) :: row in rows && !Full(row)
  {
    if rows != [] {
      FullCountBounds(rows[1..]);
    }
  }

  lemma {:induction false} FullCountConcat(a: seq<Row>, b: seq<Row>)
    ensures FullCount(a + b) == FullCount(a) + FullCount(b)
  {
    if a == [] {
      assert a + b == b;
    } else {
      assert (a + b)[1..] == a[1..] + b;
      FullCountConcat(a[1..], b);
    }
  }

  lemma {:induction false} NoFullRowsCount(rows: seq<Row>)
    requires forall row | row in rows :: !Full(row)
    ensures FullCount(rows) == 0
  {
    if rows != [] {
      NoFullRowsCount(rows[1..]);
    }
  }

  lemma BlankIsNotFull()
    ensures IsRow(BlankRow()) && !Full(BlankRow())
  {
    assert BlankRow()[0] == Empty;
  }

  lemma ClearedIsClean(b: Grid)
    requires IsGrid(b)
    ensures IsGrid(Cleared(b))
    ensures forall row | row in Cleared(b) :: !Full(row)
  {
    FullCountBounds(b);
    BlankIsNotFull();
    forall r | 0 <= r < ROWS ensures IsRow(Cleared(b)[r]) {
      assert r >= FullCount(b) ==> Cleared(b)[r] in NonFull(b);
    }
  }

  /** The rows without an empty cell. */
  function CompleteRows(rows: seq<Row>): set<int> {
    set r | 0 <= r < |rows| && forall c | 0 <= c < |rows[r]| :: rows[r][c] != Empty
  }

  /** Counting full rows counts the rows without an empty cell. */
  lemma {:induction false} FullCountIsSize(rows: seq<Row>)
    ensures FullCount(rows) == |CompleteRows(rows)|
  {
    if rows == [] {
      assert CompleteRows(rows) == {};
    } else {
      var n := |rows| - 1;
      FullCountIsSize(rows[..n]);
      assert rows == rows[..n] + [rows[n]];
      FullCountConcat(rows[..n], [rows[n]]);
      assert Full(rows[n]) <==> forall c | 0 <= c < |rows[n]| :: rows[n][c] != Empty;
      assert CompleteRows(rows) == CompleteRows(rows[..n]) + if Full(rows[n]) then {n} else {};
    }
  }

  lemma {:induction false} NonFullKeeps(rows: seq<Row>, r: nat)
    requires r < |rows| && !Full(rows[r])
    ensures FullCount(rows[..r]) <= r && r - FullCount(rows[..r]) < |NonFull(rows)|
    ensures NonFull(rows)[r - FullCount(rows[..r])] == rows[r]
  {
    if r == 0 {
      assert rows[..0] == [];
    } else {
      NonFullKeeps(rows[1..], r - 1);
      assert rows[..r] == [rows[0]] + rows[1..][..r - 1];
      FullCountConcat([rows[0]], rows[1..][..r - 1]);
    }
  }

  /** What clearing does row by row: as many empty rows on top as there were rows without an empty cell, and every
      other row moves down by the number of those below it. */
  lemma RowsMoveDown(b: Grid)
    requires IsGrid(b)
    ensures var cleared := |CompleteRows(b)|;
            && FullCount(b) == cleared <= |Cleared(b)| == 20
            && (forall r, c | 0 <= r < cleared && 0 <= c < |Cleared(b)[r]| :: Cleared(b)[r][c] == Empty)
    ensures forall r | 0 <= r < 20 && Empty in b[r] ::
              r + FullCount(b[r..]) < |Cleared(b)| && Cleared(b)[r + FullCount(b[r..])] == b[r]
  {
    FullCountIsSize(b);
    FullCountBounds(b);
    ClearedIsClean(b);
    var n := FullCount(b);
    forall r | 0 <= r < 20 && Empty in b[r]
      ensures r + FullCount(b[r..]) < |Cleared(b)| && Cleared(b)[r + FullCount(b[r..])] == b[r]
    {
      NonFullKeeps(b, r);
      assert b[..r] + b[r..] == b;
      FullCountConcat(b[..r], b[r..]);
      assert Cleared(b)[n + (r - FullCount(b[..r]))] == NonFull(b)[r - FullCount(b[..r])];
    }
  }

  /** Clearing has looked at the rows of b from k on: they are done, and those before k are still to come. */
  ghost predicate Progress(b: Grid, k: nat, board: Grid, cleared: nat) {
    && k <= |b| == ROWS
    && board == Blank(cleared) + b[..k] + NonFull(b[k..])
    && cleared == FullCount(b[k..])
  }

  lemma ProgressIsGrid(b: Grid, k: nat, board: Grid, cleared: nat)
    requires IsGrid(b) && Progress(b, k, board, cleared)
    ensures IsGrid(board) && cleared + k <= ROWS
    ensures forall r | 0 <= r < cleared :: !Full(board[r])
    ensures k > 0 ==> board[cleared + k - 1] == b[k - 1]
  {
    FullCountBounds(b[k..]);
    BlankIsNotFull();
    forall r | 0 <= r < ROWS ensures IsRow(board[r]) {
      assert r >= cleared + k ==> board[r] in NonFull(b[k..]);
    }
  }

  lemma ProgressStarts(b: Grid)
    requires IsGrid(b)
    ensures Progress(b, ROWS, b, 0)
  {
    assert b[ROWS..] == [] && b[..ROWS] == b;
  }

  lemma ProgressEnds(b: Grid, board: Grid, cleared: nat)
    requires IsGrid(b) && Progress(b, 0, board, cleared)
    ensures board == Cleared(b) && cleared == FullCount(b)
  {
    assert b[0..] == b && b[..0] == [];
  }

  lemma KeepRow(b: Grid, k: nat, board: Grid, cleared: nat)
    requires IsGrid(b) && Progress(b, k, board, cleared) && k > 0 && !Full(b[k - 1])
    ensures Progress(b, k - 1, board, cleared)
  {
    assert b[k - 1..][1..] == b[k..];
    assert b[..k] == b[..k - 1] + [b[k - 1]];
  }

  lemma RemoveRow(b: Grid, k: nat, board: Grid, cleared: nat)
    requires IsGrid(b) && Progress(b, k, board, cleared) && k > 0 && Full(b[k - 1])
    ensures var y := cleared + k - 1;
            y < |board| && Progress(b, k - 1, [BlankRow()] + (board[..y] + board[y + 1..]), cleared + 1)
  {
    assert b[k - 1..][1..] == b[k..];
    assert Blank(cleared + 1) == [BlankRow()] + Blank(cleared);
  }

  /** The board part of clearLines: splice the full row out, put an empty one on top and look at
      the same index again, since the rows above have moved down by one. */
  method RemoveFullRows(b: Grid) returns (board: Grid, cleared: nat)
    requires IsGrid(b)
    ensures board == Cleared(b)
    ensures cleared == FullCount(b)
  {
    hide Progress, FullCount, NonFull, Cleared;
    board, cleared := b, 0;
    var y := ROWS - 1;
    ghost var k: nat := ROWS;
    ProgressStarts(b);
    label outer:
    while y >= 0
      invariant -1 <= y < ROWS && Progress(b, k, board, cleared)
      invariant if k == 0 then y < cleared else y == cleared + k - 1
      decreases ROWS - cleared, y
    {
      ProgressIsGrid(b, k, board, cleared);
      for x := 0 to COLS
        invariant forall i | 0 <= i < x :: board[y][i] != Empty
      {
        if board[y][x] == Empty {
          if k > 0 {
            KeepRow(b, k, board, cleared);
            k := k - 1;
          }
          y := y - 1;
          continue outer;
        }
      }
      assert IsRow(board[y]) && Full(board[y]);
      RemoveRow(b, k, board, cleared);
      board := board[..y] + board[y + 1..];
      board := [BlankRow()] + board;
      cleared := cleared + 1;
      k := k - 1;
      ProgressIsGrid(b, k, board, cleared);
    }
    ProgressEnds(b, board, cleared);
  }

  // ---------------------------------------------------------------------------
  // Counting filled cells row by row
  // ---------------------------------------------------------------------------

  function RowCells(row: Row): set<int> {
    set c | 0 <= c < |row| && row[c] != Empty
  }

  function RowSum(rows: seq<Row>): nat {
    if rows == [] then 0 else RowSum(rows[..|rows| - 1]) + |RowCells(rows[|rows| - 1])|
  }

  lemma {:induction false} RowSumConcat(a: seq<Row>, b: seq<Row>)
    ensures RowSum(a + b) == RowSum(a) + RowSum(b)
  {
    if b == [] {
      assert a + b == a;
    } else {
      assert (a + b)[..|a + b| - 1] == a + b[..|b| - 1];
      RowSumConcat(a, b[..|b| - 1]);
    }
  }

  function RowsFilled(rows: seq<Row>): set<(int, int)> {
    set r, c | 0 <= r < |rows| && c in RowCells(rows[r]) :: (r, c)
  }

  /** A one-to-one map into t shows that s is no larger than t. */
  lemma {:induction false} Injection<X(!new), Y(!new)>(f: X -> Y, s: set<X>, t: set<Y>)
    requires forall a | a in s :: f(a) in t
    requires forall a, b | a in s && b in s && f(a) == f(b) :: a == b
    ensures |s| <= |t|
  {
    if s != {} {
      var a :| a in s;
      Injection(f, s - {a}, t - {f(a)});
    }
  }

  lemma {:induction false} RowSumCounts(rows: seq<Row>)
    ensures RowSum(rows) == |RowsFilled(rows)|
  {
    if rows != [] {
      var n := |rows| - 1;
      RowSumCounts(rows[..n]);
      var last := RowCells(rows[n]);
      var placed := set c | c in last :: (n, c);
      Injection(c => (n, c), last, placed);
      Injection((cell: (int, int)) => cell.1, placed, last);
      assert RowsFilled(rows) == RowsFilled(rows[..n]) + placed;
    }
  }

  lemma FilledIsRowSum(b: Grid)
    requires IsGrid(b)
    ensures |Filled(b)| == RowSum(b)
  {
    RowSumCounts(b);
    assert Filled(b) == RowsFilled(b);
  }

  lemma {:induction false} FullRowCells(row: Row)
    requires Full(row)
    ensures |RowCells(row)| == |row|
  {
    if row == [] {
      assert RowCells(row) == {};
    } else {
      var n := |row| - 1;
      FullRowCells(row[..n]);
      assert RowCells(row) == RowCells(row[..n]) + {n};
    }
  }

  lemma {:induction false} NonFullSum(rows: seq<Row>)
    requires forall row | row in rows :: IsRow(row)
    ensures RowSum(rows) == RowSum(NonFull(rows)) + COLS * FullCount(rows)
  {
    if rows != [] {
      NonFullSum(rows[1..]);
      assert rows == [rows[0]] + rows[1..];
      RowSumConcat([rows[0]], rows[1..]);
      RowSumConcat([rows[0]], NonFull(rows[1..]));
      assert [rows[0]][..0] == [];
      assert RowSum([rows[0]]) == |RowCells(rows[0])|;
      if Full(rows[0]) {
        FullRowCells(rows[0]);
        assert IsRow(rows[0]);
        assert NonFull(rows) == NonFull(rows[1..]);
      }
    }
  }

  lemma {:induction false} BlankSum(n: nat)
    ensures RowSum(Blank(n)) == 0
  {
    if n != 0 {
      assert Blank(n)[..n - 1] == Blank(n - 1);
      BlankSum(n - 1);
      assert RowCells(BlankRow()) == {};
    }
  }

  /** Clearing takes away exactly ten filled cells per full row. */
  lemma ClearingConserves(b: Grid)
    requires IsGrid(b)
    ensures IsGrid(Cleared(b))
    ensures |Filled(b)| == |Filled(Cleared(b))| + COLS * FullCount(b)
  {
    ClearedIsClean(b);
    FilledIsRowSum(b);
    FilledIsRowSum(Cleared(b));
    NonFullSum(b);
    RowSumConcat(Blank(FullCount(b)), NonFull(b));
    BlankSum(FullCount(b));
  }

  // ---------------------------------------------------------------------------
  // Shapes and rotation
  // ---------------------------------------------------------------------------

  function Shape(kind: Kind): Matrix {
    match kind
    case I => [[false, false, false, false], [true, true, true, true],
               [false, false, false, false], [false, false, false, false]]
    case O => [[true, true], [true, true]]
    case T => [[false, true, false], [true, true, true], [false, false, false]]
    case S => [[false, true, true], [true, true, false], [false, false, false]]
    case Z => [[true, true, false], [false, true, true], [false, false, false]]
    case J => [[true, false, false], [true, true, true], [false, false, false]]
    case L => [[false, false, true], [true, true, true], [false, false, false]]
  }

  /** A clockwise quarter turn. */
  function Rotated(m: Matrix): (out: Matrix)
    requires Square(m)
    ensures Square(out) && |out| == |m|
  {
    seq(|m|, i requires 0 <= i < |m| => seq(|m|, j requires 0 <= j < |m| => m[|m| - 1 - j][i]))
  }

  method RotateMatrix(m: Matrix) returns (out: Matrix)
    requires Square(m)
    ensures out == Rotated(m)
    ensures |out| == |m| && Square(out)
    ensures forall y, x | 0 <= y < |m| && 0 <= x < |m| :: out[x][|m| - 1 - y] == m[y][x]
  {
    var n := |m|;
    out := seq(n, _ => seq(n, _ => false));
    for y := 0 to n
      invariant Square(out) && |out| == n
      invariant forall i, j | 0 <= i < n && n - y <= j < n :: out[i][j] == m[n - 1 - j][i]
    {
      for x := 0 to n
        invariant Square(out) && |out| == n
        invariant forall i, j | 0 <= i < n && n - y <= j < n :: out[i][j] == m[n - 1 - j][i]
        invariant forall i | 0 <= i < x :: out[i][n - 1 - y] == m[y][i]
      {
        out := out[x := out[x][n - 1 - y := m[y][x]]];
      }
    }
    assert forall i | 0 <= i < n :: out[i] == Rotated(m)[i];
    forall y, x | 0 <= y < n && 0 <= x < n ensures out[x][n - 1 - y] == m[y][x] {
      assert out[x][n - 1 - y] == m[n - 1 - (n - 1 - y)][x];
    }
  }

  /** Turning goes clockwise: what was in row y from the top comes to stand in column y from the right. */
  lemma TurnsClockwise(m: Matrix)
    requires Square(m)
    ensures |Rotated(m)| == |m|
    ensures forall y, x | 0 <= y < |m| && 0 <= x < |m| :: Rotated(m)[x][|m| - 1 - y] == m[y][x]
  {
    var n := |m|;
    forall y, x | 0 <= y < n && 0 <= x < n ensures Rotated(m)[x][n - 1 - y] == m[y][x] {
      assert Rotated(m)[x][n - 1 - y] == m[n - 1 - (n - 1 - y)][x];
    }
  }

  function Turned(k: nat, m: Matrix): (out: Matrix)
    requires Square(m)
    ensures Square(out) && |out| == |m|
  {
    if k == 0 then m else Rotated(Turned(k - 1, m))
  }

  lemma HalfTurn(m: Matrix)
    requires Square(m)
    ensures var half := Rotated(Rotated(m));
            forall i, j | 0 <= i < |m| && 0 <= j < |m| :: half[i][j] == m[|m| - 1 - i][|m| - 1 - j]
  {
  }

  /** Four quarter turns give the shape back. */
  lemma FourTurns(m: Matrix)
    requires Square(m)
    ensures Rotated(Rotated(Rotated(Rotated(m)))) == m
  {
    var half := Rotated(Rotated(m));
    HalfTurn(m);
    HalfTurn(half);
    var full := Rotated(Rotated(half));
    assert forall i | 0 <= i < |m| :: full[i] == m[i];
  }

  function Cells(m: Matrix): set<(int, int)>
    requires Square(m)
  {
    set i, j | 0 <= i < |m| && 0 <= j < |m| && m[i][j] :: (i, j)
  }

  /** Turning a shape keeps the number of its cells. */
  lemma RotationKeepsCells(m: Matrix)
    requires Square(m)
    ensures |Cells(Rotated(m))| == |Cells(m)|
  {
    var n := |m|;
    Injection((cell: (int, int)) => (cell.1, n - 1 - cell.0), Cells(m), Cells(Rotated(m)));
    Injection((cell: (int, int)) => (n - 1 - cell.1, cell.0), Cells(Rotated(m)), Cells(m));
  }

  /** The filled cells of each shape, by row and column. */
  lemma ShapeCells(kind: Kind)
    ensures Square(Shape(kind)) && |Cells(Shape(kind))| == 4
    ensures |Shape(kind)| == match kind case I => 4 case O => 2 case _ => 3
    ensures Cells(Shape(kind)) == match kind
              case I => {(1, 0), (1, 1), (1, 2), (1, 3)}
              case O => {(0, 0), (0, 1), (1, 0), (1, 1)}
              case T => {(0, 1), (1, 0), (1, 1), (1, 2)}
              case S => {(0, 1), (0, 2), (1, 0), (1, 1)}
              case Z => {(0, 0), (0, 1), (1, 1), (1, 2)}
              case J => {(0, 0), (1, 0), (1, 1), (1, 2)}
              case L => {(0, 2), (1, 0), (1, 1), (1, 2)}
  {
    var m := Shape(kind);
    var cells := match kind
      case I => {(1, 0), (1, 1), (1, 2), (1, 3)}
      case O => {(0, 0), (0, 1), (1, 0), (1, 1)}
      case T => {(0, 1), (1, 0), (1, 1), (1, 2)}
      case S => {(0, 1), (0, 2), (1, 0), (1, 1)}
      case Z => {(0, 0), (0, 1), (1, 1), (1, 2)}
      case J => {(0, 0), (1, 0), (1, 1), (1, 2)}
      case L => {(0, 2), (1, 0), (1, 1), (1, 2)};
    assert Cells(m) == cells;
  }

  /** The piece shows its kind's shape in one of its four orientations. */
  ghost predicate Oriented(p: Piece) {
    Square(Shape(p.kind)) && exists k: nat :: k < 4 && p.matrix == Turned(k, Shape(p.kind))
  }

  lemma {:induction false} TurnedCells(k: nat, m: Matrix)
    requires Square(m)
    ensures |Cells(Turned(k, m))| == |Cells(m)|
  {
    if k != 0 {
      TurnedCells(k - 1, m);
      RotationKeepsCells(Turned(k - 1, m));
    }
  }

  lemma OrientedHasFourCells(p: Piece)
    requires Oriented(p)
    ensures Square(p.matrix) && 2 <= |p.matrix| <= 4 && |Cells(p.matrix)| == 4
  {
    var k: nat :| k < 4 && p.matrix == Turned(k, Shape(p.kind));
    ShapeCells(p.kind);
    TurnedCells(k, Shape(p.kind));
  }

  lemma RotationKeepsOrientation(p: Piece)
    requires Oriented(p)
    ensures Square(p.matrix) && Oriented(p.(matrix := Rotated(p.matrix)))
  {
    var m := Shape(p.kind);
    var k: nat :| k < 4 && p.matrix == Turned(k, m);
    if k == 3 {
      FourTurns(m);
      assert Turned(3, m) == Rotated(Turned(2, m)) == Rotated(Rotated(Turned(1, m))) == Rotated(Rotated(Rotated(m)));
      assert Rotated(p.matrix) == Turned(0, m);
    } else {
      assert Rotated(p.matrix) == Turned(k + 1, m);
    }
  }

  lemma VisibleAtMostFour(p: Piece)
    requires Oriented(p)
    ensures Square(p.matrix) && |Visible(p)| <= 4
  {
    OrientedHasFourCells(p);
    Injection((cell: (int, int)) => (cell.0 - p.y, cell.1 - p.x), Visible(p), Cells(p.matrix));
  }

  /** A piece locked on a board without full rows fills at most four rows: only rows it touches can become full. */
  lemma AtMostFourRows(b: Grid, p: Piece)
    requires IsGrid(b) && Square(p.matrix) && |p.matrix| <= 4
    requires forall row | row in b :: !Full(row)
    ensures FullCount(Merge(b, p)) <= 4
  {
    var merged := Merge(b, p);
    var top := if p.y < 0 then 0 else if p.y > ROWS then ROWS else p.y;
    var bottom := if top + 4 > ROWS then ROWS else top + 4;
    forall r | 0 <= r < ROWS && !(top <= r < bottom) ensures merged[r] == b[r] {
      assert forall c :: !Covers(p, r, c);
      assert forall c | 0 <= c < COLS :: merged[r][c] == b[r][c];
    }
    assert merged[..top] == b[..top] && merged[bottom..] == b[bottom..];
    NoFullRowsCount(merged[..top]);
    NoFullRowsCount(merged[bottom..]);
    FullCountConcat(merged[..top], merged[top..bottom]);
    FullCountConcat(merged[..bottom], merged[bottom..]);
    assert merged[..top] + merged[top..bottom] == merged[..bottom];
    assert merged[..bottom] + merged[bottom..] == merged;
    FullCountBounds(merged[top..bottom]);
  }

  // ---------------------------------------------------------------------------
  // Dropping
  // ---------------------------------------------------------------------------

  /** A piece that fits has a cell above the floor. */
  lemma FittingIsAboveFloor(p: Piece, b: Grid)
    requires IsGrid(b) && Oriented(p) && Square(p.matrix) && !Collides(p, b)
    ensures p.y < ROWS
  {
    OrientedHasFourCells(p);
    var cell :| cell in Cells(p.matrix);
    assert Covers(p, p.y + cell.0, p.x + cell.1);
  }

  function Below(p: Piece, n: int): Piece {
    p.(y := p.y + n)
  }

  lemma BelowIsOriented(p: Piece, n: int)
    requires Oriented(p)
    ensures Oriented(Below(p, n))
  {
    var k: nat :| k < 4 && p.matrix == Turned(k, Shape(p.kind));
    assert Below(p, n).matrix == Turned(k, Shape(Below(p, n).kind));
  }

  /** Where a piece comes to rest when it falls straight down. */
  ghost function Landing(p: Piece, b: Grid): (landed: Piece)
    requires IsGrid(b) && Oriented(p) && Square(p.matrix) && !Collides(p, b)
    ensures landed == Below(p, landed.y - p.y) && landed.y >= p.y
    ensures !Collides(landed, b) && Collides(Below(landed, 1), b)
    decreases ROWS - p.y
  {
    FittingIsAboveFloor(p, b);
    BelowIsOriented(p, 1);
    if Collides(Below(p, 1), b) then p else Landing(Below(p, 1), b)
  }

  /** Nothing is in the way between a piece and its landing. */
  lemma {:induction false} FreeFall(p: Piece, b: Grid, n: nat)
    requires IsGrid(b) && Oriented(p) && Square(p.matrix) && !Collides(p, b)
    requires n <= Landing(p, b).y - p.y
    ensures !Collides(Below(p, n), b)
    decreases n
  {
    if n != 0 {
      hide Collides, Oriented;
      BelowIsOriented(p, 1);
      FreeFall(Below(p, 1), b, n - 1);
      assert Below(Below(p, 1), n - 1) == Below(p, n);
    }
  }
}
