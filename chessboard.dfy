/**
 * The ChessBoard object: the 8x8 board updated in place, the side to move
 * and the re-entrancy flag of check detection. Each method is proved
 * against the pure definitions of modules Board, MoveGen, Legality and
 * Notation, evaluated on a snapshot of the board.
 */
module Chess {
  import opened Board
  import opened MoveGen
  import opened Legality
  import opened Notation

  /** Concatenation of move lists is associative. */
  lemma AppendAssoc(a: seq<Move>, b: seq<Move>, c: seq<Move>)
    ensures a + b + c == a + (b + c)
  {
  }

  class ChessBoard {
    /** The board, indexed [row, col]. */
    const board: array2<int>
    /** The side to move. */
    var move: Player
    /** Set while isInCheck is computing the opponent's moves. */
    var checkingForCheck: bool

    ghost predicate Valid() {
      board.Length0 == 8 && board.Length1 == 8
    }

    /** The board's contents as a grid value. */
    ghost function Snapshot(): Grid
      requires Valid()
      reads board
    {
      seq(8, r requires 0 <= r < 8 reads board => seq(8, c requires 0 <= c < 8 reads board => board[r, c]))
    }

    /** A board that agrees with h on every square has snapshot h. */
    lemma SnapshotIs(h: Grid)
      requires Valid()
      requires forall r, c :: 0 <= r < 8 && 0 <= c < 8 ==> board[r, c] == h[r][c]
      ensures Snapshot() == h
    {
      var s := Snapshot();
      forall r | 0 <= r < 8
        ensures s[r] == h[r]
      {
      }
    }

    /** The starting position, White to move, the flag clear. */
    constructor ()
      ensures Valid() && fresh(board)
      ensures Snapshot() == Initial
      ensures move == White && !checkingForCheck
    {
      board := new int[8, 8]((r, c) => if 0 <= r < 8 && 0 <= c < 8 then Initial[r][c] else 0);
      move := White;
      checkingForCheck := false;
      new;
      SnapshotIs(Initial);
    }

    // ------------------------------------------------------- the board

    /** getBoard: a fresh copy of the board, square by square. */
    method GetBoard() returns (copy: array2<int>)
      requires Valid()
      ensures fresh(copy) && copy.Length0 == 8 && copy.Length1 == 8
      ensures forall r, c :: 0 <= r < 8 && 0 <= c < 8 ==> copy[r, c] == Snapshot()[r][c]
    {
      copy := new int[8, 8];
      for i := 0 to 8
        invariant forall r, c :: 0 <= r < i && 0 <= c < 8 ==> copy[r, c] == board[r, c]
      {
        for j := 0 to 8
          invariant forall r, c :: 0 <= r < i && 0 <= c < 8 ==> copy[r, c] == board[r, c]
          invariant forall c :: 0 <= c < j ==> copy[i, c] == board[i, c]
        {
          copy[i, j] := board[i, j];
        }
      }
    }

    /** getBoardArray: the 64 squares row-major, then a slot 64 that stays 0. */
    method GetBoardArray() returns (a: array<int>)
      requires Valid()
      ensures fresh(a) && a.Length == 65
      ensures a[..64] == Flatten(Snapshot())
      ensures a[64] == 0
    {
      a := new int[65](_ => 0);
      for y := 0 to 8
        invariant forall r, c :: 0 <= r < y && 0 <= c < 8 ==> a[8 * r + c] == board[r, c]
        invariant a[64] == 0
      {
        for x := 0 to 8
          invariant forall r, c :: 0 <= r < y && 0 <= c < 8 ==> a[8 * r + c] == board[r, c]
          invariant forall c :: 0 <= c < x ==> a[8 * y + c] == board[y, c]
          invariant a[64] == 0
        {
          a[8 * y + x] := board[y, x];
        }
      }
      ghost var g := Snapshot();
      FlattenAt(g, 0, 0);
      forall i | 0 <= i < 64
        ensures a[i] == Flatten(g)[i]
      {
        FlattenAt(g, i / 8, i % 8);
        assert a[8 * (i / 8) + i % 8] == board[i / 8, i % 8];
      }
    }

    /**
     * movePiece: nothing happens when a coordinate is off the board or the
     * source is empty; a king on column 4 sent to column 6 or 2 castles on its
     * own row; any other move clears the source and writes the piece to the
     * destination.
     */
    method MovePiece(fromRow: int, fromCol: int, toRow: int, toCol: int)
      requires Valid()
      modifies board
      ensures Snapshot() == ApplyMove(old(Snapshot()), fromRow, fromCol, toRow, toCol)
    {
      ghost var g := Snapshot();
      if 0 <= fromRow < 8 && 0 <= fromCol < 8 && 0 <= toRow < 8 && 0 <= toCol < 8 {
        var piece := board[fromRow, fromCol];
        if piece == 0 {
          return;
        }
        if piece == 6 || piece == -6 {
          if fromCol == 4 && (toCol == 6 || toCol == 2) {
            if toCol == 6 {
              board[fromRow, 4] := 0;
              board[fromRow, 6] := piece;
              board[fromRow, 7] := 0;
              board[fromRow, 5] := if piece > 0 then 2 else -2;
            } else if toCol == 2 {
              board[fromRow, 4] := 0;
              board[fromRow, 2] := piece;
              board[fromRow, 0] := 0;
              board[fromRow, 3] := if piece > 0 then 2 else -2;
            }
            SnapshotIs(Castle(g, fromRow, toCol, piece));
            return;
          }
        }
        board[fromRow, fromCol] := 0;
        board[toRow, toCol] := piece;
        SnapshotIs(Relocate(g, fromRow, fromCol, toRow, toCol));
      }
    }

    /** removePiece: empties an on-board square; off-board coordinates change nothing. */
    method RemovePiece(row: int, col: int)
      requires Valid()
      modifies board
      ensures Snapshot() == Put(old(Snapshot()), row, col, 0)
    {
      ghost var g := Snapshot();
      if 0 <= row < 8 && 0 <= col < 8 {
        board[row, col] := 0;
        SnapshotIs(Set(g, row, col, 0));
      }
    }

    /** addPiece: writes any code to an on-board square; off-board coordinates change nothing. */
    method AddPiece(row: int, col: int, piece: int)
      requires Valid()
      modifies board
      ensures Snapshot() == Put(old(Snapshot()), row, col, piece)
    {
      ghost var g := Snapshot();
      if 0 <= row < 8 && 0 <= col < 8 {
        board[row, col] := piece;
        SnapshotIs(Set(g, row, col, piece));
      }
    }

    /** The plain array store board[row][col] = v of the source, on an on-board square. */
    method Write(row: int, col: int, v: int)
      requires Valid() && InRange(row, col)
      modifies board
      ensures Snapshot() == Set(old(Snapshot()), row, col, v)
    {
      ghost var g := Snapshot();
      board[row, col] := v;
      SnapshotIs(Set(g, row, col, v));
    }

    /** nextMove: the turn passes to the other side; nothing else changes. */
    method NextMove()
      modifies this
      ensures move == Other(old(move))
      ensures checkingForCheck == old(checkingForCheck)
    {
      if move == White {
        move := Black;
      } else {
        move := White;
      }
    }

    /** currentPlayer: the side to move. */
    method CurrentPlayer() returns (p: Player)
      ensures p == move
    {
      p := move;
    }

    /** toString: the board as 8 lines of piece characters. */
    method ToString() returns (s: string)
      requires Valid()
      ensures s == Render(Snapshot())
    {
      ghost var g := Snapshot();
      s := [];
      for row := 0 to 8
        invariant s == RenderRows(g, row)
      {
        for col := 0 to 8
          invariant s == RenderRows(g, row) + RowText(g[row], col)
        {
          s := s + [PieceChar(board[row, col])];
        }
        s := s + "\n";
      }
    }

    // ----------------------------------------------- move generation

    /** addPawnMoves: moves appends the pawn moves of the square, in the source's order. */
    method AddPawnMoves(row: int, col: int, isWhite: bool, moves: seq<Move>) returns (result: seq<Move>)
      requires Valid()
      ensures result == moves + PawnMoves(Snapshot(), row, col, isWhite)
    {
      var direction := if isWhite then -1 else 1;
      var startRow := if isWhite then 6 else 1;
      result := moves;
      if InRange(row + direction, col) && board[row + direction, col] == 0 {
        result := result + [Move(row, col, row + direction, col)];
        if row == startRow && board[row + 2 * direction, col] == 0 {
          result := result + [Move(row, col, row + 2 * direction, col)];
        }
      }
      ghost var g := Snapshot();
      ghost var forward := PawnForward(g, row, col, isWhite);
      ghost var left, right := PawnCapture(g, row, col, isWhite, -1), PawnCapture(g, row, col, isWhite, 1);
      assert result == moves + forward;
      result := AddPawnCapture(row, col, isWhite, -1, result);
      AppendAssoc(moves, forward, left);
      result := AddPawnCapture(row, col, isWhite, 1, result);
      AppendAssoc(moves, forward + left, right);
    }

    /** One capture test of addPawnMoves: diagonally forward towards column col + dc. */
    method AddPawnCapture(row: int, col: int, isWhite: bool, dc: int, moves: seq<Move>) returns (result: seq<Move>)
      requires Valid()
      ensures result == moves + PawnCapture(Snapshot(), row, col, isWhite, dc)
    {
      var direction := if isWhite then -1 else 1;
      result := moves;
      if InRange(row + direction, col + dc) && IsOpponent(board[row + direction, col + dc], isWhite) {
        result := result + [Move(row, col, row + direction, col + dc)];
      }
    }

    /**
     * The loop of addKnightMoves and addKingMoves: one move per offset whose
     * square is on the board and holds no friendly piece.
     */
    method AddStepMoves(row: int, col: int, isWhite: bool, moves: seq<Move>, offsets: seq<(int, int)>)
      returns (result: seq<Move>)
      requires Valid()
      ensures result == moves + StepMoves(Snapshot(), row, col, isWhite, offsets)
    {
      ghost var g := Snapshot();
      result := moves;
      for i := 0 to |offsets|
        invariant result == moves + StepMoves(g, row, col, isWhite, offsets[..i])
      {
        var newRow := row + offsets[i].0;
        var newCol := col + offsets[i].1;
        ghost var before := StepMoves(g, row, col, isWhite, offsets[..i]);
        if InRange(newRow, newCol) && !IsFriendly(board[newRow, newCol], isWhite) {
          AppendAssoc(moves, before, [Move(row, col, newRow, newCol)]);
          result := result + [Move(row, col, newRow, newCol)];
        }
        assert offsets[..i + 1][..i] == offsets[..i];
      }
      assert offsets[..|offsets|] == offsets;
    }

    /** addKnightMoves. */
    method AddKnightMoves(row: int, col: int, isWhite: bool, moves: seq<Move>) returns (result: seq<Move>)
      requires Valid()
      ensures result == moves + StepMoves(Snapshot(), row, col, isWhite, KnightOffsets)
    {
      result := AddStepMoves(row, col, isWhite, moves, KnightOffsets);
    }

    /** addKingMoves. */
    method AddKingMoves(row: int, col: int, isWhite: bool, moves: seq<Move>) returns (result: seq<Move>)
      requires Valid()
      ensures result == moves + StepMoves(Snapshot(), row, col, isWhite, KingOffsets)
    {
      result := AddStepMoves(row, col, isWhite, moves, KingOffsets);
    }

    /**
     * addLinearMoves: for each direction in turn, the moves of the ray in that
     * direction.
     */
    method AddLinearMoves(row: int, col: int, isWhite: bool, moves: seq<Move>, directions: seq<(int, int)>)
      returns (result: seq<Move>)
      requires Valid() && AreDirections(directions)
      ensures result == moves + LinearMoves(Snapshot(), row, col, isWhite, directions)
    {
      ghost var g := Snapshot();
      result := moves;
      for d := 0 to |directions|
        invariant result == moves + LinearMoves(g, row, col, isWhite, directions[..d])
      {
        ghost var before := LinearMoves(g, row, col, isWhite, directions[..d]);
        result := AddRay(row, col, isWhite, directions[d].0, directions[d].1, result);
        assert directions[..d + 1][..d] == directions[..d];
        AppendAssoc(moves, before, Ray(g, row, col, isWhite, directions[d].0, directions[d].1, 1));
      }
      assert directions[..|directions|] == directions;
    }

    /**
     * The while loop of addLinearMoves for one direction (dr, dc): walk away
     * from (row, col) adding every square until one is off the board or
     * friendly, stopping after the first occupied one.
     */
    method AddRay(row: int, col: int, isWhite: bool, dr: int, dc: int, moves: seq<Move>) returns (result: seq<Move>)
      requires Valid() && IsDirection(dr, dc)
      ensures result == moves + Ray(Snapshot(), row, col, isWhite, dr, dc, 1)
    {
      ghost var g := Snapshot();
      ghost var ray := Ray(g, row, col, isWhite, dr, dc, 1);
      result := moves;
      var newRow, newCol := row + dr, col + dc;
      ghost var k := 1;
      while InRange(newRow, newCol) && !IsFriendly(board[newRow, newCol], isWhite)
        invariant newRow == Along(row, dr, k) && newCol == Along(col, dc, k)
        invariant result + Ray(g, row, col, isWhite, dr, dc, k) == moves + ray
        decreases Remaining(newRow, dr) + Remaining(newCol, dc)
      {
        AppendAssoc(result, [Move(row, col, newRow, newCol)], Ray(g, row, col, isWhite, dr, dc, k + 1));
        result := result + [Move(row, col, newRow, newCol)];
        if board[newRow, newCol] != 0 {
          break;
        }
        newRow := newRow + dr;
        newCol := newCol + dc;
        k := k + 1;
      }
    }

    /** addRookMoves. */
    method AddRookMoves(row: int, col: int, isWhite: bool, moves: seq<Move>) returns (result: seq<Move>)
      requires Valid()
      ensures result == moves + LinearMoves(Snapshot(), row, col, isWhite, RookDirections)
    {
      result := AddLinearMoves(row, col, isWhite, moves, RookDirections);
    }

    /** addBishopMoves. */
    method AddBishopMoves(row: int, col: int, isWhite: bool, moves: seq<Move>) returns (result: seq<Move>)
      requires Valid()
      ensures result == moves + LinearMoves(Snapshot(), row, col, isWhite, BishopDirections)
    {
      result := AddLinearMoves(row, col, isWhite, moves, BishopDirections);
    }

    /** addQueenMoves. */
    method AddQueenMoves(row: int, col: int, isWhite: bool, moves: seq<Move>) returns (result: seq<Move>)
      requires Valid()
      ensures result == moves + LinearMoves(Snapshot(), row, col, isWhite, QueenDirections)
    {
      result := AddLinearMoves(row, col, isWhite, moves, QueenDirections);
    }

    /** getMovesForPiece: the pseudo-legal moves of `piece` on (row, col), by its magnitude. */
    method GetMovesForPiece(row: int, col: int, piece: int) returns (moves: seq<Move>)
      requires Valid()
      ensures moves == MovesForPiece(Snapshot(), row, col, piece)
    {
      moves := [];
      var isWhite := piece > 0;
      var kind := Abs(piece);
      if kind == 1 {
        moves := AddPawnMoves(row, col, isWhite, moves);
      } else if kind == 2 {
        moves := AddRookMoves(row, col, isWhite, moves);
      } else if kind == 3 {
        moves := AddKnightMoves(row, col, isWhite, moves);
      } else if kind == 4 {
        moves := AddBishopMoves(row, col, isWhite, moves);
      } else if kind == 5 {
        moves := AddQueenMoves(row, col, isWhite, moves);
      } else if kind == 6 {
        moves := AddKingMoves(row, col, isWhite, moves);
      }
    }

    // ------------------------------------------------------- legality

    /**
     * getAllLegalMoves: scans the squares row-major; for each move of each of
     * the player's pieces it plays the move, asks isInCheck, and puts the
     * mover and the captured code back. The board and the flag end as they
     * started.
     */
    method GetAllLegalMoves(player: Player) returns (legalMoves: seq<Move>)
      requires Valid()
      modifies this, board
      ensures legalMoves == LegalMovesGuarded(old(Snapshot()), player, old(checkingForCheck))
      ensures Snapshot() == old(Snapshot())
      ensures checkingForCheck == old(checkingForCheck) && move == old(move)
      decreases if checkingForCheck then 0 else 1, 4
    {
      ghost var g := Snapshot();
      ghost var guard := checkingForCheck;
      legalMoves := [];
      for row := 0 to 8
        invariant Snapshot() == g && checkingForCheck == guard && move == old(move)
        invariant legalMoves == Keep(g, player, guard, ScanBefore(g, player, row, 0))
      {
        for col := 0 to 8
          invariant Snapshot() == g && checkingForCheck == guard && move == old(move)
          invariant legalMoves == Keep(g, player, guard, ScanBefore(g, player, row, col))
        {
          FilteredStep(g, player, guard, row, col);
          var kept := ScanSquare(player, row, col);
          legalMoves := legalMoves + kept;
        }
        assert ScanBefore(g, player, row + 1, 0) == ScanBefore(g, player, row, 8);
      }
    }

    /**
     * The body of getAllLegalMoves for square (row, col): nothing unless the
     * player owns the piece there, else that piece's moves after which the
     * player is not in check.
     */
    method ScanSquare(player: Player, row: int, col: int) returns (kept: seq<Move>)
      requires Valid() && InRange(row, col)
      modifies this, board
      ensures kept == Keep(old(Snapshot()), player, old(checkingForCheck), SquareMoves(old(Snapshot()), player, row, col))
      ensures Snapshot() == old(Snapshot())
      ensures checkingForCheck == old(checkingForCheck) && move == old(move)
      decreases if checkingForCheck then 0 else 1, 3
    {
      kept := [];
      var piece := board[row, col];
      if (player == White && piece > 0) || (player == Black && piece < 0) {
        var pieceMoves := GetMovesForPiece(row, col, piece);
        kept := KeepLegal(player, row, col, pieceMoves);
      }
    }

    /**
     * The inner loop of getAllLegalMoves over the moves of the piece on
     * (row, col): the moves after which the player is not in check, in order.
     */
    method KeepLegal(player: Player, row: int, col: int, pieceMoves: seq<Move>) returns (kept: seq<Move>)
      requires Valid() && InRange(row, col)
      requires pieceMoves == MovesForPiece(Snapshot(), row, col, Snapshot()[row][col])
      modifies this, board
      ensures kept == Keep(old(Snapshot()), player, old(checkingForCheck), pieceMoves)
      ensures Snapshot() == old(Snapshot())
      ensures checkingForCheck == old(checkingForCheck) && move == old(move)
      decreases if checkingForCheck then 0 else 1, 2
    {
      ghost var g := Snapshot();
      ghost var guard := checkingForCheck;
      kept := [];
      for i := 0 to |pieceMoves|
        invariant Snapshot() == g && checkingForCheck == guard && move == old(move)
        invariant kept == Keep(g, player, guard, pieceMoves[..i])
      {
        var m := pieceMoves[i];
        assert pieceMoves[..i + 1] == pieceMoves[..i] + [m];
        var keep := SimulateMove(player, row, col, m);
        if keep {
          kept := kept + [m];
        }
      }
      assert pieceMoves[..|pieceMoves|] == pieceMoves;
    }

    /**
     * One pass of getAllLegalMoves's inner loop for the move m of the piece on
     * (row, col): record the destination's code, play m with movePiece, ask
     * isInCheck, then write the piece back on its source and the recorded
     * code back on the destination. The result says whether m is kept.
     */
    method SimulateMove(player: Player, row: int, col: int, m: Move) returns (keep: bool)
      requires Valid() && InRange(row, col)
      requires m in MovesForPiece(Snapshot(), row, col, Snapshot()[row][col])
      modifies this, board
      ensures keep == Survives(old(Snapshot()), player, old(checkingForCheck), m)
      ensures Snapshot() == old(Snapshot())
      ensures checkingForCheck == old(checkingForCheck) && move == old(move)
      decreases if checkingForCheck then 0 else 1, 1
    {
      ghost var g := Snapshot();
      var piece := board[row, col];
      GeneratedMoveUndo(g, row, col, m);
      var capturedPiece := board[m.toRow, m.toCol];
      MovePiece(m.fromRow, m.fromCol, m.toRow, m.toCol);
      var check := IsInCheck(player);
      keep := !check;
      Write(m.fromRow, m.fromCol, piece);
      Write(m.toRow, m.toCol, capturedPiece);
    }

    /**
     * The king search of isInCheck: rows and columns in order, leaving both
     * loops at the first square holding the player's king; (-1, -1) when there
     * is none.
     */
    method FindKingSquare(player: Player) returns (kingRow: int, kingCol: int)
      requires Valid()
      ensures (kingRow, kingCol) == FindKing(Snapshot(), player)
    {
      ghost var g := Snapshot();
      kingRow, kingCol := -1, -1;
      var row := 0;
      while row < 8
        invariant 0 <= row <= 8
        invariant kingRow == -1 && kingCol == -1
        invariant forall r, c :: 0 <= r < row && 0 <= c < 8 ==> !IsKingOf(player, g[r][c])
      {
        var col := 0;
        while col < 8
          invariant 0 <= col <= 8
          invariant forall c :: 0 <= c < col ==> !IsKingOf(player, g[row][c])
        {
          if IsKingOf(player, board[row, col]) {
            kingRow, kingCol := row, col;
            break;
          }
          col := col + 1;
        }
        if kingRow != -1 {
          break;
        }
        row := row + 1;
      }
      if kingRow != -1 {
        assert FirstKing(g, player, kingRow, kingCol);
        FirstKingUnique(g, player, kingRow, kingCol, FindKing(g, player).0, FindKing(g, player).1);
      }
    }

    /** The attack test of isInCheck: whether a move of ms ends on (kingRow, kingCol), stopping at the first. */
    static method AnyLandsOn(ms: seq<Move>, kingRow: int, kingCol: int) returns (found: bool)
      ensures found == LandsOn(ms, kingRow, kingCol)
    {
      found := false;
      var i := 0;
      while i < |ms|
        invariant 0 <= i <= |ms|
        invariant forall j :: 0 <= j < i ==> !(ms[j].toRow == kingRow && ms[j].toCol == kingCol)
      {
        if ms[i].toRow == kingRow && ms[i].toCol == kingCol {
          found := true;
          break;
        }
        i := i + 1;
      }
    }

    /**
     * isInCheck: false at once when the flag is set. Otherwise it sets the
     * flag, finds the player's first king row-major, asks getAllLegalMoves
     * for the opponent, reports whether one of those moves ends on the king,
     * and clears the flag again.
     */
    method IsInCheck(player: Player) returns (inCheck: bool)
      requires Valid()
      modifies this, board
      ensures inCheck == InCheckGuarded(old(Snapshot()), player, old(checkingForCheck))
      ensures Snapshot() == old(Snapshot())
      ensures checkingForCheck == old(checkingForCheck) && move == old(move)
      decreases if checkingForCheck then 0 else 1, 0
    {
      if checkingForCheck {
        return false;
      }
      checkingForCheck := true;
      var kingRow, kingCol := FindKingSquare(player);
      var opponentMoves := GetAllLegalMoves(Other(player));
      inCheck := AnyLandsOn(opponentMoves, kingRow, kingCol);
      checkingForCheck := false;
    }
  }
}
