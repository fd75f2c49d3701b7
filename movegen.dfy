/**
 * Pseudo-legal move generation on a board snapshot: the moves a piece may
 * make by its movement geometry and the occupancy of the squares, ignoring
 * whether its own king is left attacked. The lists are built in the
 * source's order: offsets and directions as listed, squares row-major.
 */
module MoveGen {
  import opened Board

  /** A move from (fromRow, fromCol) to (toRow, toCol). */
  datatype Move = Move(fromRow: int, fromCol: int, toRow: int, toCol: int)

  /** A unit step in one of the eight compass directions. */
  predicate IsDirection(dr: int, dc: int) {
    -1 <= dr <= 1 && -1 <= dc <= 1 && !(dr == 0 && dc == 0)
  }

  predicate AreDirections(dirs: seq<(int, int)>) {
    forall i :: 0 <= i < |dirs| ==> IsDirection(dirs[i].0, dirs[i].1)
  }

  const RookDirections: seq<(int, int)> := [(1, 0), (-1, 0), (0, 1), (0, -1)]
  const BishopDirections: seq<(int, int)> := [(1, 1), (1, -1), (-1, 1), (-1, -1)]
  const QueenDirections: seq<(int, int)> :=
    [(1, 0), (-1, 0), (0, 1), (0, -1), (1, 1), (1, -1), (-1, 1), (-1, -1)]
  const KnightOffsets: seq<(int, int)> :=
    [(-2, -1), (-2, 1), (-1, -2), (-1, 2), (1, -2), (1, 2), (2, -1), (2, 1)]
  const KingOffsets: seq<(int, int)> :=
    [(1, 0), (-1, 0), (0, 1), (0, -1), (1, 1), (1, -1), (-1, 1), (-1, -1)]

  /** x moved k steps in direction d, for d in {-1, 0, 1}. */
  function Along(x: int, d: int, k: int): int {
    if d > 0 then x + k else if d < 0 then x - k else x
  }

  /** How many squares at most are left on the board from x going in direction d. */
  function Remaining(x: int, d: int): nat {
    if d > 0 && x < 8 then 8 - x else if d < 0 && x >= 0 then x + 1 else 0
  }

  /** A square a sliding piece cannot enter: off the board or holding a friendly piece. */
  predicate Blocked(g: Grid, isWhite: bool, r: int, c: int) {
    !InRange(r, c) || IsFriendly(g[r][c], isWhite)
  }

  /** A move from (row, col) whose destination is on the board and holds no friendly piece. */
  predicate Lands(g: Grid, row: int, col: int, isWhite: bool, m: Move) {
    m.fromRow == row && m.fromCol == col && InRange(m.toRow, m.toCol)
      && !IsFriendly(g[m.toRow][m.toCol], isWhite)
  }

  // ---------------------------------------------------------------- pawns

  function PawnDirection(isWhite: bool): int {
    if isWhite then -1 else 1
  }

  function PawnStartRow(isWhite: bool): int {
    if isWhite then 6 else 1
  }

  /** The pawn's forward moves: one step onto an empty square, then two from the start row. */
  function PawnForward(g: Grid, row: int, col: int, isWhite: bool): seq<Move> {
    var dir := PawnDirection(isWhite);
    if InRange(row + dir, col) && g[row + dir][col] == 0 then
      [Move(row, col, row + dir, col)]
      + (if row == PawnStartRow(isWhite) && g[row + 2 * dir][col] == 0
         then [Move(row, col, row + 2 * dir, col)] else [])
    else []
  }

  /** The pawn's capture towards column col + dc, if an opponent's piece stands there. */
  function PawnCapture(g: Grid, row: int, col: int, isWhite: bool, dc: int): seq<Move> {
    var dir := PawnDirection(isWhite);
    if InRange(row + dir, col + dc) && IsOpponent(g[row + dir][col + dc], isWhite)
    then [Move(row, col, row + dir, col + dc)] else []
  }

  /** The pawn moves addPawnMoves adds: forward moves, then the captures to the left and to the right. */
  function PawnMoves(g: Grid, row: int, col: int, isWhite: bool): seq<Move> {
    PawnForward(g, row, col, isWhite) + PawnCapture(g, row, col, isWhite, -1) + PawnCapture(g, row, col, isWhite, 1)
  }

  /**
   * The pawn rule, independent of the generator: a step forward onto an
   * empty square; two steps forward from the start row over two empty
   * squares; or one step diagonally forward onto an opponent's piece.
   */
  predicate PawnRule(g: Grid, row: int, col: int, isWhite: bool, m: Move)
    requires InRange(m.toRow, m.toCol)
  {
    var dir := PawnDirection(isWhite);
    || (m.toCol == col && m.toRow == row + dir && g[m.toRow][m.toCol] == 0)
    || (m.toCol == col && row == PawnStartRow(isWhite) && m.toRow == row + 2 * dir
        && g[row + dir][col] == 0 && g[m.toRow][m.toCol] == 0)
    || (m.toRow == row + dir && (m.toCol == col - 1 || m.toCol == col + 1)
        && IsOpponent(g[m.toRow][m.toCol], isWhite))
  }

  /** The pawn generator yields exactly the moves the pawn rule allows. */
  lemma PawnMovesExact(g: Grid, row: int, col: int, isWhite: bool, m: Move)
    ensures m in PawnMoves(g, row, col, isWhite) <==>
      m.fromRow == row && m.fromCol == col && InRange(m.toRow, m.toCol) && PawnRule(g, row, col, isWhite, m)
  {
  }

  // ------------------------------------------------------- knight and king

  /** The moves of a piece with fixed offsets (knight, king), in offset order. */
  function StepMoves(g: Grid, row: int, col: int, isWhite: bool, offsets: seq<(int, int)>): seq<Move> {
    if offsets == [] then []
    else
      var d := offsets[|offsets| - 1];
      var newRow, newCol := row + d.0, col + d.1;
      StepMoves(g, row, col, isWhite, offsets[..|offsets| - 1])
        + (if InRange(newRow, newCol) && !IsFriendly(g[newRow][newCol], isWhite)
           then [Move(row, col, newRow, newCol)] else [])
  }

  /**
   * A fixed-offset piece reaches exactly the squares at one of its offsets
   * that are on the board and hold no friendly piece.
   */
  lemma {:induction false} StepMovesExact(g: Grid, row: int, col: int, isWhite: bool, offsets: seq<(int, int)>, m: Move)
    ensures m in StepMoves(g, row, col, isWhite, offsets) <==>
      Lands(g, row, col, isWhite, m) && (m.toRow - row, m.toCol - col) in offsets
  {
    if offsets != [] {
      var n := |offsets| - 1;
      var init, d := offsets[..n], offsets[n];
      StepMovesExact(g, row, col, isWhite, init, m);
      var step := if InRange(row + d.0, col + d.1) && !IsFriendly(g[row + d.0][col + d.1], isWhite)
        then [Move(row, col, row + d.0, col + d.1)] else [];
      assert StepMoves(g, row, col, isWhite, offsets) == StepMoves(g, row, col, isWhite, init) + step;
      assert m in step <==> Lands(g, row, col, isWhite, m) && (m.toRow - row, m.toCol - col) == d;
      assert offsets == init + [d];
    }
  }

  // ------------------------------------------------------- sliding pieces

  /**
   * The moves addLinearMoves adds for a piece on (row, col) in direction
   * (dr, dc), from the square k steps away onward: empty squares are added
   * and passed, the first occupied square is added only if it holds an
   * opponent piece, and an off-board or friendly square ends the ray.
   */
  function Ray(g: Grid, row: int, col: int, isWhite: bool, dr: int, dc: int, k: int): seq<Move>
    requires IsDirection(dr, dc)
    decreases Remaining(Along(row, dr, k), dr) + Remaining(Along(col, dc, k), dc)
  {
    var r, c := Along(row, dr, k), Along(col, dc, k);
    if Blocked(g, isWhite, r, c) then []
    else if g[r][c] != 0 then [Move(row, col, r, c)]
    else [Move(row, col, r, c)] + Ray(g, row, col, isWhite, dr, dc, k + 1)
  }

  /**
   * The ray, element by element: its i-th move goes to the square k + i
   * steps away, lands on the board on a square without a friendly piece,
   * and every square before the last is empty.
   */
  predicate RayShape(g: Grid, row: int, col: int, isWhite: bool, dr: int, dc: int, k: int, ray: seq<Move>) {
    && (forall i :: 0 <= i < |ray| ==> ray[i] == Move(row, col, Along(row, dr, k + i), Along(col, dc, k + i)))
    && (forall i :: 0 <= i < |ray| ==> Lands(g, row, col, isWhite, ray[i]))
    && (forall i :: 0 <= i < |ray| - 1 ==> EmptyAt(g, ray[i].toRow, ray[i].toCol))
  }

  /** Every ray has the shape RayShape describes. */
  lemma {:induction false} RayExact(g: Grid, row: int, col: int, isWhite: bool, dr: int, dc: int, k: int)
    requires IsDirection(dr, dc)
    ensures RayShape(g, row, col, isWhite, dr, dc, k, Ray(g, row, col, isWhite, dr, dc, k))
    decreases Remaining(Along(row, dr, k), dr) + Remaining(Along(col, dc, k), dc)
  {
    var r, c := Along(row, dr, k), Along(col, dc, k);
    if !Blocked(g, isWhite, r, c) && g[r][c] == 0 {
      RayExact(g, row, col, isWhite, dr, dc, k + 1);
      var tail := Ray(g, row, col, isWhite, dr, dc, k + 1);
      RayShapeCons(g, row, col, isWhite, dr, dc, k, tail);
    }
  }

  /** Prepending the empty square k steps away to a ray shaped from step k + 1 gives a ray shaped from step k. */
  lemma RayShapeCons(g: Grid, row: int, col: int, isWhite: bool, dr: int, dc: int, k: int, tail: seq<Move>)
    requires RayShape(g, row, col, isWhite, dr, dc, k + 1, tail)
    requires EmptyAt(g, Along(row, dr, k), Along(col, dc, k))
    ensures RayShape(g, row, col, isWhite, dr, dc, k, [Move(row, col, Along(row, dr, k), Along(col, dc, k))] + tail)
  {
    var ray := [Move(row, col, Along(row, dr, k), Along(col, dc, k))] + tail;
    forall i | 0 < i < |ray|
      ensures ray[i] == tail[i - 1]
      ensures ray[i] == Move(row, col, Along(row, dr, k + i), Along(col, dc, k + i))
    {
      var j := i - 1;
      assert (k + 1) + j == k + i;
    }
  }

  /**
   * How a ray cast from step k ends: it is empty when its first square is
   * blocked; otherwise its last move lands on an occupied (hence opponent)
   * square, or the square one step further is off the board or friendly.
   */
  predicate RayEnds(g: Grid, row: int, col: int, isWhite: bool, dr: int, dc: int, k: int, ray: seq<Move>) {
    if ray == [] then Blocked(g, isWhite, Along(row, dr, k), Along(col, dc, k))
    else
      var last := ray[|ray| - 1];
      && Lands(g, row, col, isWhite, last)
      && (g[last.toRow][last.toCol] != 0 || Blocked(g, isWhite, last.toRow + dr, last.toCol + dc))
  }

  /** Every ray ends as RayEnds describes. */
  lemma {:induction false} RayEnd(g: Grid, row: int, col: int, isWhite: bool, dr: int, dc: int, k: int)
    requires IsDirection(dr, dc)
    ensures RayEnds(g, row, col, isWhite, dr, dc, k, Ray(g, row, col, isWhite, dr, dc, k))
    decreases Remaining(Along(row, dr, k), dr) + Remaining(Along(col, dc, k), dc)
  {
    var r, c := Along(row, dr, k), Along(col, dc, k);
    if !Blocked(g, isWhite, r, c) && g[r][c] == 0 {
      RayEnd(g, row, col, isWhite, dr, dc, k + 1);
      var ray := Ray(g, row, col, isWhite, dr, dc, k);
      var tail := Ray(g, row, col, isWhite, dr, dc, k + 1);
      assert ray == [Move(row, col, r, c)] + tail;
      if |tail| > 0 {
        assert ray[|ray| - 1] == tail[|tail| - 1];
      }
    }
  }

  /**
   * m slides from (row, col) k >= 1 steps in direction (dr, dc): every
   * square strictly between is on the board and empty, and the destination
   * is on the board and holds no friendly piece.
   */
  ghost predicate SlidesTo(g: Grid, row: int, col: int, isWhite: bool, dr: int, dc: int, m: Move) {
    && m.fromRow == row && m.fromCol == col
    && exists k :: 1 <= k && SlideSquares(g, row, col, isWhite, dr, dc, k)
         && m.toRow == Along(row, dr, k) && m.toCol == Along(col, dc, k)
  }

  /** The square k steps away is on the board without a friendly piece, and every square from step 1 up to it is empty. */
  ghost predicate SlideSquares(g: Grid, row: int, col: int, isWhite: bool, dr: int, dc: int, k: int) {
    && InRange(Along(row, dr, k), Along(col, dc, k))
    && !IsFriendly(g[Along(row, dr, k)][Along(col, dc, k)], isWhite)
    && forall j :: 1 <= j < k ==> EmptyAt(g, Along(row, dr, j), Along(col, dc, j))
  }

  predicate EmptyAt(g: Grid, r: int, c: int) {
    InRange(r, c) && g[r][c] == 0
  }

  /** A ray from step k0 reaches step k whenever every square from step k0 to k - 1 is empty. */
  lemma {:induction false} RayReaches(g: Grid, row: int, col: int, isWhite: bool, dr: int, dc: int, k0: int, k: int)
    requires IsDirection(dr, dc) && k0 <= k
    requires InRange(Along(row, dr, k), Along(col, dc, k)) && !IsFriendly(g[Along(row, dr, k)][Along(col, dc, k)], isWhite)
    requires forall j :: k0 <= j < k ==> EmptyAt(g, Along(row, dr, j), Along(col, dc, j))
    ensures k - k0 < |Ray(g, row, col, isWhite, dr, dc, k0)|
    ensures Ray(g, row, col, isWhite, dr, dc, k0)[k - k0] == Move(row, col, Along(row, dr, k), Along(col, dc, k))
    decreases k - k0
  {
    if k0 < k {
      assert EmptyAt(g, Along(row, dr, k0), Along(col, dc, k0));
      RayReaches(g, row, col, isWhite, dr, dc, k0 + 1, k);
    }
  }

  /** The ray cast from one step away holds exactly the moves that slide in its direction. */
  lemma RayIsSliding(g: Grid, row: int, col: int, isWhite: bool, dr: int, dc: int, m: Move)
    requires IsDirection(dr, dc)
    ensures m in Ray(g, row, col, isWhite, dr, dc, 1) <==> SlidesTo(g, row, col, isWhite, dr, dc, m)
  {
    var ray := Ray(g, row, col, isWhite, dr, dc, 1);
    RayExact(g, row, col, isWhite, dr, dc, 1);
    if m in ray {
      var i :| 0 <= i < |ray| && ray[i] == m;
      forall j | 1 <= j < i + 1
        ensures EmptyAt(g, Along(row, dr, j), Along(col, dc, j))
      {
        assert ray[j - 1].toRow == Along(row, dr, j) && ray[j - 1].toCol == Along(col, dc, j);
      }
      assert SlideSquares(g, row, col, isWhite, dr, dc, i + 1);
    }
    if SlidesTo(g, row, col, isWhite, dr, dc, m) {
      var k :| 1 <= k && SlideSquares(g, row, col, isWhite, dr, dc, k)
         && m.toRow == Along(row, dr, k) && m.toCol == Along(col, dc, k);
      RayReaches(g, row, col, isWhite, dr, dc, 1, k);
    }
  }

  /** m slides from (row, col) in one of the directions of dirs. */
  ghost predicate SlidesAlong(g: Grid, row: int, col: int, isWhite: bool, dirs: seq<(int, int)>, m: Move) {
    exists i :: 0 <= i < |dirs| && SlidesTo(g, row, col, isWhite, dirs[i].0, dirs[i].1, m)
  }

  /** The moves of a sliding piece: one ray per direction, in direction order. */
  function LinearMoves(g: Grid, row: int, col: int, isWhite: bool, dirs: seq<(int, int)>): seq<Move>
    requires AreDirections(dirs)
  {
    if dirs == [] then []
    else
      var d := dirs[|dirs| - 1];
      LinearMoves(g, row, col, isWhite, dirs[..|dirs| - 1]) + Ray(g, row, col, isWhite, d.0, d.1, 1)
  }

  /** A sliding piece reaches exactly the squares it can slide to in one of its directions. */
  lemma {:induction false} LinearMovesExact(g: Grid, row: int, col: int, isWhite: bool, dirs: seq<(int, int)>, m: Move)
    requires AreDirections(dirs)
    ensures m in LinearMoves(g, row, col, isWhite, dirs) <==> SlidesAlong(g, row, col, isWhite, dirs, m)
  {
    if dirs != [] {
      var n := |dirs| - 1;
      var init := dirs[..n];
      LinearMovesExact(g, row, col, isWhite, init, m);
      RayIsSliding(g, row, col, isWhite, dirs[n].0, dirs[n].1, m);
      assert forall i :: 0 <= i < n ==> init[i] == dirs[i];
    }
  }

  // ------------------------------------------------------------ dispatch

  /** The moves getMovesForPiece returns for `piece` on (row, col), dispatched on its magnitude. */
  function MovesForPiece(g: Grid, row: int, col: int, piece: int): (ms: seq<Move>)
    ensures !(1 <= Abs(piece) <= 6) ==> ms == []
  {
    var isWhite := piece > 0;
    match Abs(piece)
    case 1 => PawnMoves(g, row, col, isWhite)
    case 2 => LinearMoves(g, row, col, isWhite, RookDirections)
    case 3 => StepMoves(g, row, col, isWhite, KnightOffsets)
    case 4 => LinearMoves(g, row, col, isWhite, BishopDirections)
    case 5 => LinearMoves(g, row, col, isWhite, QueenDirections)
    case 6 => StepMoves(g, row, col, isWhite, KingOffsets)
    case _ => []
  }

  /** The movement rule of each piece kind, stated without the generators. */
  ghost predicate PieceRule(g: Grid, row: int, col: int, piece: int, m: Move)
    requires InRange(m.toRow, m.toCol)
  {
    var isWhite := piece > 0;
    match Abs(piece)
    case 1 => PawnRule(g, row, col, isWhite, m)
    case 2 => SlidesAlong(g, row, col, isWhite, RookDirections, m)
    case 3 => (m.toRow - row, m.toCol - col) in KnightOffsets
    case 4 => SlidesAlong(g, row, col, isWhite, BishopDirections, m)
    case 5 => SlidesAlong(g, row, col, isWhite, QueenDirections, m)
    case 6 => (m.toRow - row, m.toCol - col) in KingOffsets
    case _ => false
  }

  /**
   * getMovesForPiece yields exactly the moves from (row, col) onto an
   * on-board square without a friendly piece that the piece's rule allows.
   */
  lemma MovesForPieceExact(g: Grid, row: int, col: int, piece: int, m: Move)
    ensures m in MovesForPiece(g, row, col, piece) <==>
      Lands(g, row, col, piece > 0, m) && PieceRule(g, row, col, piece, m)
  {
    var kind := Abs(piece);
    if kind == 2 || kind == 4 || kind == 5 {
      SliderExact(g, row, col, piece, m);
    } else if kind == 1 || kind == 3 || kind == 6 {
      StepperExact(g, row, col, piece, m);
    }
  }

  /** The three direction tables hold unit steps. */
  lemma DirectionTables()
    ensures AreDirections(RookDirections) && AreDirections(BishopDirections) && AreDirections(QueenDirections)
  {
  }

  /** MovesForPieceExact for the sliding pieces: rook, bishop and queen. */
  lemma SliderExact(g: Grid, row: int, col: int, piece: int, m: Move)
    requires Abs(piece) == 2 || Abs(piece) == 4 || Abs(piece) == 5
    ensures m in MovesForPiece(g, row, col, piece) <==>
      Lands(g, row, col, piece > 0, m) && PieceRule(g, row, col, piece, m)
  {
    var isWhite := piece > 0;
    DirectionTables();
    var dirs := if Abs(piece) == 2 then RookDirections else if Abs(piece) == 4 then BishopDirections else QueenDirections;
    assert MovesForPiece(g, row, col, piece) == LinearMoves(g, row, col, isWhite, dirs);
    SlidingExact(g, row, col, isWhite, dirs, m);
  }

  /** MovesForPieceExact for the other pieces: pawn, knight and king. */
  lemma StepperExact(g: Grid, row: int, col: int, piece: int, m: Move)
    requires Abs(piece) == 1 || Abs(piece) == 3 || Abs(piece) == 6
    ensures m in MovesForPiece(g, row, col, piece) <==>
      Lands(g, row, col, piece > 0, m) && PieceRule(g, row, col, piece, m)
  {
    var isWhite := piece > 0;
    if Abs(piece) == 1 {
      assert MovesForPiece(g, row, col, piece) == PawnMoves(g, row, col, isWhite);
      PawnLands(g, row, col, isWhite, m);
    } else {
      var offsets := if Abs(piece) == 3 then KnightOffsets else KingOffsets;
      assert MovesForPiece(g, row, col, piece) == StepMoves(g, row, col, isWhite, offsets);
      StepMovesExact(g, row, col, isWhite, offsets, m);
    }
  }

  /** The pawn generator, stated with Lands: a pawn never lands on a friendly piece. */
  lemma PawnLands(g: Grid, row: int, col: int, isWhite: bool, m: Move)
    ensures m in PawnMoves(g, row, col, isWhite) <==>
      Lands(g, row, col, isWhite, m) && PawnRule(g, row, col, isWhite, m)
  {
    PawnMovesExact(g, row, col, isWhite, m);
  }

  /** The sliding generator, stated with Lands: a sliding move never lands on a friendly piece. */
  lemma SlidingExact(g: Grid, row: int, col: int, isWhite: bool, dirs: seq<(int, int)>, m: Move)
    requires AreDirections(dirs)
    ensures m in LinearMoves(g, row, col, isWhite, dirs) <==>
      Lands(g, row, col, isWhite, m) && SlidesAlong(g, row, col, isWhite, dirs, m)
  {
    LinearMovesExact(g, row, col, isWhite, dirs, m);
    if SlidesAlong(g, row, col, isWhite, dirs, m) {
      var i :| 0 <= i < |dirs| && SlidesTo(g, row, col, isWhite, dirs[i].0, dirs[i].1, m);
      var k :| 1 <= k && SlideSquares(g, row, col, isWhite, dirs[i].0, dirs[i].1, k)
        && m.toRow == Along(row, dirs[i].0, k) && m.toCol == Along(col, dirs[i].1, k);
    }
  }

  lemma SlidingMoveLeaves(g: Grid, row: int, col: int, isWhite: bool, dr: int, dc: int, m: Move)
    requires IsDirection(dr, dc) && SlidesTo(g, row, col, isWhite, dr, dc, m)
    ensures !(m.toRow == row && m.toCol == col)
  {
  }

  /**
   * Every generated move starts on (row, col) and lands on a different,
   * on-board square without a friendly piece; a king moves at most one
   * square in each coordinate, so no generated move has the castling shape.
   */
  lemma MovesForPieceShape(g: Grid, row: int, col: int, piece: int, m: Move)
    requires m in MovesForPiece(g, row, col, piece)
    ensures 1 <= Abs(piece) <= 6
    ensures Lands(g, row, col, piece > 0, m)
    ensures !(m.toRow == row && m.toCol == col)
    ensures Abs(piece) == 6 ==> -1 <= m.toRow - row <= 1 && -1 <= m.toCol - col <= 1
    ensures !IsCastling(piece, m.fromCol, m.toCol)
  {
    MovesForPieceExact(g, row, col, piece, m);
    var isWhite := piece > 0;
    if Abs(piece) == 2 {
      SlidingLeaves(g, row, col, isWhite, RookDirections, m);
    } else if Abs(piece) == 4 {
      SlidingLeaves(g, row, col, isWhite, BishopDirections, m);
    } else if Abs(piece) == 5 {
      SlidingLeaves(g, row, col, isWhite, QueenDirections, m);
    }
  }

  /** A move that slides in one of the directions leaves its square. */
  lemma SlidingLeaves(g: Grid, row: int, col: int, isWhite: bool, dirs: seq<(int, int)>, m: Move)
    requires AreDirections(dirs) && SlidesAlong(g, row, col, isWhite, dirs, m)
    ensures !(m.toRow == row && m.toCol == col)
  {
    var i :| 0 <= i < |dirs| && SlidesTo(g, row, col, isWhite, dirs[i].0, dirs[i].1, m);
    SlidingMoveLeaves(g, row, col, isWhite, dirs[i].0, dirs[i].1, m);
  }

  // ------------------------------------------------------- whole board

  /** The moves of the piece on (r, c) if it belongs to p, else none. */
  function SquareMoves(g: Grid, p: Player, r: int, c: int): seq<Move>
    requires InRange(r, c)
  {
    if Owns(p, g[r][c]) then MovesForPiece(g, r, c, g[r][c]) else []
  }

  /** A scan position: square (r, c) of the row-major scan, (8, 0) when it is over. */
  predicate ScanPos(r: int, c: int) {
    0 <= r <= 8 && 0 <= c <= 8 && (r == 8 ==> c == 0)
  }

  /** The moves of p's pieces on the squares scanned before (r, c), in scan order. */
  function ScanBefore(g: Grid, p: Player, r: int, c: int): seq<Move>
    requires ScanPos(r, c)
    decreases r, c
  {
    if c == 0 then (if r == 0 then [] else ScanBefore(g, p, r - 1, 8))
    else ScanBefore(g, p, r, c - 1) + SquareMoves(g, p, r, c - 1)
  }

  /** All pseudo-legal moves of p: every square scanned row-major. */
  function PseudoLegalMoves(g: Grid, p: Player): seq<Move> {
    ScanBefore(g, p, 8, 0)
  }

  /** A generated move starts where its piece stands. */
  lemma MovesStartAt(g: Grid, row: int, col: int, piece: int, m: Move)
    requires m in MovesForPiece(g, row, col, piece)
    ensures m.fromRow == row && m.fromCol == col
  {
    MovesForPieceExact(g, row, col, piece, m);
  }

  /** p has a piece on (r, c) whose generated moves include m. */
  predicate GeneratedAt(g: Grid, p: Player, r: int, c: int, m: Move) {
    InRange(r, c) && Owns(p, g[r][c]) && m in MovesForPiece(g, r, c, g[r][c])
  }

  /** A square's own moves are the ones p's piece there generates, all starting there. */
  lemma SquareMovesExact(g: Grid, p: Player, r: int, c: int, m: Move)
    requires InRange(r, c)
    ensures m in SquareMoves(g, p, r, c) <==> m.fromRow == r && m.fromCol == c && GeneratedAt(g, p, r, c, m)
  {
    if m in SquareMoves(g, p, r, c) {
      MovesStartAt(g, r, c, g[r][c], m);
    }
  }

  /** The scan up to (r, c) holds exactly the moves of p's pieces standing before (r, c). */
  lemma {:induction false} ScanBeforeExact(g: Grid, p: Player, r: int, c: int, m: Move)
    requires ScanPos(r, c)
    ensures m in ScanBefore(g, p, r, c) <==>
      Before(m.fromRow, m.fromCol, r, c) && GeneratedAt(g, p, m.fromRow, m.fromCol, m)
    decreases r, c
  {
    if c == 0 {
      if r > 0 {
        ScanBeforeExact(g, p, r - 1, 8, m);
      }
    } else {
      ScanBeforeExact(g, p, r, c - 1, m);
      SquareMovesExact(g, p, r, c - 1, m);
      assert ScanBefore(g, p, r, c) == ScanBefore(g, p, r, c - 1) + SquareMoves(g, p, r, c - 1);
    }
  }

  /**
   * A move is pseudo-legal for p exactly when it is one of the generated
   * moves of a piece of p's colour standing on its source square.
   */
  lemma PseudoLegalExact(g: Grid, p: Player, m: Move)
    ensures m in PseudoLegalMoves(g, p) <==>
      && InRange(m.fromRow, m.fromCol) && Owns(p, g[m.fromRow][m.fromCol])
      && m in MovesForPiece(g, m.fromRow, m.fromCol, g[m.fromRow][m.fromCol])
  {
    ScanBeforeExact(g, p, 8, 0, m);
  }

  /**
   * Every pseudo-legal move of p starts on a square holding one of p's
   * pieces and lands on a different on-board square without a piece of p's
   * colour; none has the castling shape.
   */
  lemma PseudoLegalShape(g: Grid, p: Player, m: Move)
    requires m in PseudoLegalMoves(g, p)
    ensures InRange(m.fromRow, m.fromCol) && InRange(m.toRow, m.toCol)
    ensures Owns(p, g[m.fromRow][m.fromCol])
    ensures !(m.toRow == m.fromRow && m.toCol == m.fromCol)
    ensures !Owns(p, g[m.toRow][m.toCol])
    ensures !IsCastling(g[m.fromRow][m.fromCol], m.fromCol, m.toCol)
  {
    PseudoLegalExact(g, p, m);
    MovesForPieceShape(g, m.fromRow, m.fromCol, g[m.fromRow][m.fromCol], m);
  }
}
