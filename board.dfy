/**
 * Board state of the chess engine: an 8x8 grid of signed piece codes, the
 * side to move, and what a raw move does to the grid (the castling special
 * case included).
 *
 * Piece codes: 1 pawn, 2 rook, 3 knight, 4 bishop, 5 queen, 6 king; a
 * positive code is a White piece, a negative one a Black piece, 0 an empty
 * square. Row 0 is Black's home rank, row 7 White's.
 */
module Board {

  /** The side whose turn it is. */
  datatype Player = White | Black

  /** The side that moves after `p`. */
  function Other(p: Player): (q: Player)
    ensures q != p
  {
    if p == White then Black else White
  }

  /** Advancing the turn twice gives the turn back. */
  lemma OtherTwice(p: Player)
    ensures Other(Other(p)) == p
  {
  }

  /** An 8x8 grid of piece codes, indexed [row][col]. */
  type Grid = g: seq<seq<int>> | |g| == 8 && forall r :: 0 <= r < 8 ==> |g[r]| == 8
    witness seq(8, _ => seq(8, _ => 0))

  /** The standard starting position. */
  const Initial: Grid := [
    [-2, -3, -4, -5, -6, -4, -3, -2],
    [-1, -1, -1, -1, -1, -1, -1, -1],
    [0, 0, 0, 0, 0, 0, 0, 0],
    [0, 0, 0, 0, 0, 0, 0, 0],
    [0, 0, 0, 0, 0, 0, 0, 0],
    [0, 0, 0, 0, 0, 0, 0, 0],
    [1, 1, 1, 1, 1, 1, 1, 1],
    [2, 3, 4, 5, 6, 4, 3, 2]
  ]

  /** Whether (row, col) is a square of the board (the source's isValidMove). */
  predicate InRange(row: int, col: int) {
    0 <= row < 8 && 0 <= col < 8
  }

  /** Row-major order of squares: (r1, c1) is scanned before (r2, c2). */
  predicate Before(r1: int, c1: int, r2: int, c2: int) {
    r1 < r2 || (r1 == r2 && c1 < c2)
  }

  function Abs(x: int): nat {
    if x < 0 then -x else x
  }

  /** A piece of the mover's own colour (the source's isFriendlyPiece, on the square's code). */
  predicate IsFriendly(piece: int, isWhite: bool) {
    (isWhite && piece > 0) || (!isWhite && piece < 0)
  }

  /** A piece of the other colour (the source's isOpponentPiece, on the square's code). */
  predicate IsOpponent(piece: int, isWhite: bool) {
    (isWhite && piece < 0) || (!isWhite && piece > 0)
  }

  /** Whether `piece` belongs to player `p`. */
  predicate Owns(p: Player, piece: int) {
    (p == White && piece > 0) || (p == Black && piece < 0)
  }

  /** Whether `piece` is the king of player `p`. */
  predicate IsKingOf(p: Player, piece: int) {
    (p == White && piece == 6) || (p == Black && piece == -6)
  }

  /** The grid with square (row, col) set to `v`. */
  function Set(g: Grid, row: int, col: int, v: int): Grid
    requires InRange(row, col)
  {
    g[row := g[row][col := v]]
  }

  /** The grid after addPiece(row, col, v) (removePiece is v = 0): off-board coordinates change nothing. */
  function Put(g: Grid, row: int, col: int, v: int): Grid {
    if InRange(row, col) then Set(g, row, col, v) else g
  }

  /**
   * Writing a square sets exactly that square: afterwards it holds v and
   * every other square is as before; off the board nothing changes.
   */
  lemma PutFrame(g: Grid, row: int, col: int, v: int)
    ensures InRange(row, col) ==> Put(g, row, col, v)[row][col] == v
    ensures forall r, c :: InRange(r, c) && !(r == row && c == col) ==> Put(g, row, col, v)[r][c] == g[r][c]
    ensures !InRange(row, col) ==> Put(g, row, col, v) == g
  {
  }

  /** Adding a piece and then removing it leaves the square empty, the rest as before. */
  lemma RemoveUndoesAdd(g: Grid, row: int, col: int, v: int)
    ensures Put(Put(g, row, col, v), row, col, 0) == Put(g, row, col, 0)
  {
    if InRange(row, col) {
      var h1 := Put(Put(g, row, col, v), row, col, 0);
      var h2 := Put(g, row, col, 0);
      forall r | 0 <= r < 8
        ensures h1[r] == h2[r]
      {
        assert forall c :: 0 <= c < 8 ==> h1[r][c] == h2[r][c];
      }
    }
  }

  /** A king on column 4 moving to column 6 or 2: the shape movePiece treats as castling. */
  predicate IsCastling(piece: int, fromCol: int, toCol: int) {
    (piece == 6 || piece == -6) && fromCol == 4 && (toCol == 6 || toCol == 2)
  }

  /** Plain relocation: the source square is cleared, then the destination gets the piece. */
  function Relocate(g: Grid, fromRow: int, fromCol: int, toRow: int, toCol: int): Grid
    requires InRange(fromRow, fromCol) && InRange(toRow, toCol)
  {
    Set(Set(g, fromRow, fromCol, 0), toRow, toCol, g[fromRow][fromCol])
  }

  /**
   * Castling as movePiece performs it, on row `row`: the king leaves column 4
   * for `toCol`, the corner square is cleared and a fresh rook of the king's
   * colour is written next to the king, whatever stood in the corner.
   */
  function Castle(g: Grid, row: int, toCol: int, king: int): Grid
    requires 0 <= row < 8 && (toCol == 6 || toCol == 2)
  {
    var rook := if king > 0 then 2 else -2;
    if toCol == 6 then
      Set(Set(Set(Set(g, row, 4, 0), row, 6, king), row, 7, 0), row, 5, rook)
    else
      Set(Set(Set(Set(g, row, 4, 0), row, 2, king), row, 0, 0), row, 3, rook)
  }

  /** The grid after movePiece(fromRow, fromCol, toRow, toCol). */
  function ApplyMove(g: Grid, fromRow: int, fromCol: int, toRow: int, toCol: int): Grid {
    if !(InRange(fromRow, fromCol) && InRange(toRow, toCol)) then g
    else if g[fromRow][fromCol] == 0 then g
    else if IsCastling(g[fromRow][fromCol], fromCol, toCol) then Castle(g, fromRow, toCol, g[fromRow][fromCol])
    else Relocate(g, fromRow, fromCol, toRow, toCol)
  }

  /** A coordinate off the board makes the move a no-op. */
  lemma MoveOffBoardIsNoOp(g: Grid, fromRow: int, fromCol: int, toRow: int, toCol: int)
    requires !(InRange(fromRow, fromCol) && InRange(toRow, toCol))
    ensures ApplyMove(g, fromRow, fromCol, toRow, toCol) == g
  {
  }

  /** Moving from an empty square is a no-op. */
  lemma MoveFromEmptyIsNoOp(g: Grid, fromRow: int, fromCol: int, toRow: int, toCol: int)
    requires InRange(fromRow, fromCol) && InRange(toRow, toCol) && g[fromRow][fromCol] == 0
    ensures ApplyMove(g, fromRow, fromCol, toRow, toCol) == g
  {
  }

  /**
   * A move that is not castling-shaped puts the source's piece on the
   * destination, empties the source (unless it is the destination) and
   * leaves every other square alone.
   */
  lemma RegularMoveFrame(g: Grid, fromRow: int, fromCol: int, toRow: int, toCol: int)
    requires InRange(fromRow, fromCol) && InRange(toRow, toCol)
    requires g[fromRow][fromCol] != 0 && !IsCastling(g[fromRow][fromCol], fromCol, toCol)
    ensures var h := ApplyMove(g, fromRow, fromCol, toRow, toCol);
      && h[toRow][toCol] == g[fromRow][fromCol]
      && (!(fromRow == toRow && fromCol == toCol) ==> h[fromRow][fromCol] == 0)
      && forall r, c :: InRange(r, c) && !(r == fromRow && c == fromCol) && !(r == toRow && c == toCol)
           ==> h[r][c] == g[r][c]
  {
  }

  /**
   * A castling-shaped king move ends with the king on (fromRow, toCol),
   * columns 4 and the corner empty and a rook of the king's colour beside
   * the king, whatever was in the corner and whatever toRow is; no other
   * square changes.
   */
  lemma CastlingMove(g: Grid, fromRow: int, fromCol: int, toRow: int, toCol: int)
    requires InRange(fromRow, fromCol) && InRange(toRow, toCol)
    requires IsCastling(g[fromRow][fromCol], fromCol, toCol)
    ensures var h := ApplyMove(g, fromRow, fromCol, toRow, toCol);
      var king := g[fromRow][fromCol];
      var corner := if toCol == 6 then 7 else 0;
      var rookCol := if toCol == 6 then 5 else 3;
      && h[fromRow][toCol] == king
      && h[fromRow][4] == 0
      && h[fromRow][corner] == 0
      && h[fromRow][rookCol] == (if king > 0 then 2 else -2)
      && forall r, c :: InRange(r, c) && !(r == fromRow && (c == 4 || c == toCol || c == corner || c == rookCol))
           ==> h[r][c] == g[r][c]
  {
  }

  /**
   * Writing back the source's old code and then the destination's old code
   * after a relocation between two different squares restores the grid.
   */
  lemma UndoRelocate(g: Grid, fromRow: int, fromCol: int, toRow: int, toCol: int)
    requires InRange(fromRow, fromCol) && InRange(toRow, toCol)
    requires !(fromRow == toRow && fromCol == toCol)
    ensures Set(Set(Relocate(g, fromRow, fromCol, toRow, toCol), fromRow, fromCol, g[fromRow][fromCol]),
                toRow, toCol, g[toRow][toCol]) == g
  {
    var h := Set(Set(Relocate(g, fromRow, fromCol, toRow, toCol), fromRow, fromCol, g[fromRow][fromCol]),
                 toRow, toCol, g[toRow][toCol]);
    forall r | 0 <= r < 8
      ensures h[r] == g[r]
    {
      assert forall c :: 0 <= c < 8 ==> h[r][c] == g[r][c];
    }
  }

  /** The first `n` rows laid end to end. */
  function FlattenRows(g: Grid, n: nat): seq<int>
    requires n <= 8
  {
    if n == 0 then [] else FlattenRows(g, n - 1) + g[n - 1]
  }

  /** The 64 squares in row-major order (the first 64 slots of getBoardArray). */
  function Flatten(g: Grid): seq<int> {
    FlattenRows(g, 8)
  }

  lemma {:induction false} FlattenRowsAt(g: Grid, n: nat, y: int, x: int)
    requires n <= 8 && 0 <= y < n && 0 <= x < 8
    ensures |FlattenRows(g, n)| == 8 * n
    ensures FlattenRows(g, n)[8 * y + x] == g[y][x]
  {
    FlattenRowsLength(g, n - 1);
    if y < n - 1 {
      FlattenRowsAt(g, n - 1, y, x);
    }
  }

  lemma {:induction false} FlattenRowsLength(g: Grid, n: nat)
    requires n <= 8
    ensures |FlattenRows(g, n)| == 8 * n
  {
    if n > 0 {
      FlattenRowsLength(g, n - 1);
    }
  }

  /** Slot 8*y + x of the flattened board holds square (y, x). */
  lemma FlattenAt(g: Grid, y: int, x: int)
    requires InRange(y, x)
    ensures |Flatten(g)| == 64
    ensures Flatten(g)[8 * y + x] == g[y][x]
  {
    FlattenRowsAt(g, 8, y, x);
  }
}
