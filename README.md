# Chess board engine: a verified model

This project models the board and move-legality engine of a small Java chess
program, the class `ChessBoard`. The board is an 8x8 grid of signed piece
codes. Magnitudes 1 to 6 are pawn, rook, knight, bishop, queen and king. A
positive code is a White piece, a negative code a Black piece, and 0 is an
empty square. Row 0 is Black's home rank.

The class updates the grid in place. It keeps the side to move and a
re-entrancy flag, `checkingForCheck`, that breaks the cycle between
`getAllLegalMoves` and `isInCheck`. It generates pseudo-legal moves per piece:

- fixed offsets for pawn, knight and king;
- sliding rays for rook, bishop and queen.

It filters those moves for legality by playing each move, asking whether the
mover is in check, and undoing the move.

The project has five modules:

- `Board` (board.dfy): the grid as a value. It holds the starting position and
  the raw move semantics of `movePiece`, including its castling special case.
  It also holds single-square writes and the row-major flattening.
- `MoveGen` (movegen.dfy): pseudo-legal move generation as pure functions
  over a grid, built in the source's order. Each generator is tied by a lemma
  to an independent statement of the piece's movement rule.
- `Legality` (legality.dfy): `getAllLegalMoves` and `isInCheck` as one guarded
  mutual recursion. The parameter `guard` is the flag's value on entry. Lemmas
  about these functions:
  - the legal list is an in-order filter of the pseudo-legal list;
  - with the flag set, nothing is filtered;
  - `isInCheck` is exactly "some pseudo-legal opponent move lands on the first
    king";
  - simulate-and-undo restores the board.
- `Notation` (notation.dfy): `toChessNotation` over Java `int`s, with 32-bit
  wrap-around and the 16-bit `char` cast written out. It also models
  `toString`.
- `Chess` (chessboard.dfy): the class `ChessBoard`. It has an `array2<int>`
  board and the `move` and `checkingForCheck` fields. It has a method for each
  of `getBoard`, `getBoardArray`, `movePiece`, `removePiece`, `addPiece`,
  `nextMove`, `currentPlayer`, `toString`, `getMovesForPiece`, the
  `add*Moves` helpers, `addLinearMoves`, `getAllLegalMoves` and `isInCheck`.
  A few more methods are pieces of those source methods, split out:
  - `AddPawnCapture`, `AddStepMoves` and `AddRay` are loops or tests inside
    the generators;
  - `ScanSquare`, `KeepLegal` and `SimulateMove` are the body of
    `getAllLegalMoves`;
  - `Write` is its undo store;
  - `FindKingSquare` and `AnyLandsOn` are the two loops of `isInCheck`.

  `toChessNotation` is the pure function `Notation.ToChessNotation`.
  `isValidMove`, `isFriendlyPiece` and `isOpponentPiece` are the predicates
  listed under "Left out", and `printBoardWithIndices` is left out. Each method is proved against the pure definitions
  on a snapshot of the array.
  - `MovePiece`, `AddPiece`, `RemovePiece`, `Write` and `NextMove` state the
    new board or turn.
  - `GetAllLegalMoves`, `ScanSquare`, `KeepLegal`, `SimulateMove` and
    `IsInCheck` also prove that the board, the flag and the turn come back
    unchanged.

Points about the code that are easy to get wrong:

- **Legality simulation.** The legality filter plays each move with
  `movePiece`, castling branch included, and the model calls `MovePiece`.
  `Legality.SimulationUndo` and `Legality.GeneratedMoveUndo` prove that a
  generated move never takes that branch, so the two-square undo is exact.
- **Opponent moves in the check test.** Check detection calls
  `getAllLegalMoves` for the opponent with the flag set, and the model keeps
  the flag. Under the flag, every nested `isInCheck` returns false, so the
  opponent's list is its whole pseudo-legal list. See
  `Legality.GuardedLegalIsPseudo` and `Legality.InCheckIsPseudoAttack`.
- **Missing king.** Without a king the search leaves the king square at
  (-1, -1). No move lands there, so the answer is "not in check". See
  `Legality.NoKingNotInCheck`.
- **Castling.** Castling clears the corner and writes a fresh rook of the
  king's colour beside the king, whatever stood in the corner. It fires for
  any row and any on-board `toRow` once a king on column 4 is sent to column
  6 or 2. See `Board.CastlingMove`.

## Model

| member | source | states |
|---|---|---|
| Board.Other | src/main/java/com/george/board/ChessBoard.java:181-187 | the side after a turn change differs from the side before |
| Board.OtherTwice | src/main/java/com/george/board/ChessBoard.java:181-187 | two turn changes give the turn back |
| Board.PutFrame | src/main/java/com/george/board/ChessBoard.java:154-176 | addPiece/removePiece set exactly the named on-board square and leave every other square alone; off-board coordinates change nothing |
| Board.RemoveUndoesAdd | src/main/java/com/george/board/ChessBoard.java:154-176 | adding a piece and then removing it is the same as removing it |
| Board.MoveOffBoardIsNoOp | src/main/java/com/george/board/ChessBoard.java:110-146 | movePiece with any coordinate outside 0..7 leaves the grid unchanged |
| Board.MoveFromEmptyIsNoOp | src/main/java/com/george/board/ChessBoard.java:114-118 | movePiece from an empty square leaves the grid unchanged |
| Board.RegularMoveFrame | src/main/java/com/george/board/ChessBoard.java:140-142 | a move without the castling shape puts the source's piece on the destination, empties the source unless it is the destination, and changes no other square |
| Board.CastlingMove | src/main/java/com/george/board/ChessBoard.java:121-137 | a king moved from column 4 to column 6 or 2 ends on its own row at the target column; column 4 and the corner become empty; a rook of its colour appears beside it whatever was in the corner and whatever on-board toRow is given; nothing else changes |
| Board.UndoRelocate | src/main/java/com/george/board/ChessBoard.java:289-291 | after a relocation between two different squares, writing back the two old codes restores the grid |
| Board.FlattenAt | src/main/java/com/george/board/ChessBoard.java:91-95 | slot 8*y + x of the flattened grid holds square (y, x) and the flattening has 64 slots |
| MoveGen.PawnMovesExact | src/main/java/com/george/board/ChessBoard.java:339-360 | the pawn generator yields exactly the moves from the square onto the board that are a single step onto an empty square, a double step from row 6 (White) or 1 (Black) over two empty squares, or a forward diagonal onto an opponent |
| MoveGen.PawnLands | src/main/java/com/george/board/ChessBoard.java:339-360 | the same, with the destination shown never to hold a friendly piece |
| MoveGen.StepMovesExact | src/main/java/com/george/board/ChessBoard.java:366-403 | the knight and king generators yield exactly the moves to an offset square that is on the board and holds no friendly piece |
| MoveGen.RayExact | src/main/java/com/george/board/ChessBoard.java:406-419 | the i-th move of a ray goes i steps further along the direction, lands on the board on a non-friendly square, and every move but the last lands on an empty square |
| MoveGen.RayEnd | src/main/java/com/george/board/ChessBoard.java:410-414 | a ray is empty only when its first square is blocked; otherwise its last move lands on an occupied square or the next square is off the board or friendly |
| MoveGen.RayReaches | src/main/java/com/george/board/ChessBoard.java:410-416 | a ray reaches every on-board non-friendly square whose approach squares are all empty |
| MoveGen.RayIsSliding | src/main/java/com/george/board/ChessBoard.java:406-419 | a ray holds exactly the moves that slide in its direction over empty squares onto a non-friendly square |
| MoveGen.LinearMovesExact | src/main/java/com/george/board/ChessBoard.java:406-419 | addLinearMoves yields exactly the moves that slide along one of the given directions |
| MoveGen.SlidingExact | src/main/java/com/george/board/ChessBoard.java:406-419 | the same, with the destination shown never to hold a friendly piece |
| MoveGen.MovesForPiece | src/main/java/com/george/board/ChessBoard.java:314-333 | a code whose magnitude is outside 1..6 generates no moves |
| MoveGen.MovesForPieceExact | src/main/java/com/george/board/ChessBoard.java:309-336 | getMovesForPiece yields exactly the moves from the square onto an on-board non-friendly square that the piece's movement rule allows |
| MoveGen.SliderExact | src/main/java/com/george/board/ChessBoard.java:318-329 | the same for rook, bishop and queen, with their direction tables |
| MoveGen.StepperExact | src/main/java/com/george/board/ChessBoard.java:315-332 | the same for pawn, knight and king |
| MoveGen.MovesForPieceShape | src/main/java/com/george/board/ChessBoard.java:309-403 | every generated move comes from a real piece, starts on its square, lands on a different on-board non-friendly square, moves a king at most one square each way, and so never has the castling shape |
| MoveGen.MovesStartAt | src/main/java/com/george/board/ChessBoard.java:309-336 | every generated move starts on the piece's square |
| MoveGen.SquareMovesExact | src/main/java/com/george/board/ChessBoard.java:272-277 | a square contributes a move exactly when the player owns its piece and the piece generates the move |
| MoveGen.ScanBeforeExact | src/main/java/com/george/board/ChessBoard.java:270-277 | the moves collected before square (r, c) are exactly those generated by the player's pieces on earlier squares in row-major order |
| MoveGen.PseudoLegalExact | src/main/java/com/george/board/ChessBoard.java:270-277 | a move is in the scan of the whole board exactly when a piece of the player on its source square generates it |
| MoveGen.PseudoLegalShape | src/main/java/com/george/board/ChessBoard.java:270-277 | every pseudo-legal move starts on one of the player's pieces and lands on a different on-board square without one |
| Legality.KingFrom | src/main/java/com/george/board/ChessBoard.java:493-505 | the king search from (r, c) returns the first king at or after (r, c) in row-major order, or (-1, -1) when there is none |
| Legality.FindKing | src/main/java/com/george/board/ChessBoard.java:492-505 | the king search returns the player's first king in row-major order, or (-1, -1) without one |
| Legality.FirstKingUnique | src/main/java/com/george/board/ChessBoard.java:493-505 | the first king is a single square |
| Legality.KeepAppend | src/main/java/com/george/board/ChessBoard.java:279-292 | the per-move filter distributes over concatenation |
| Legality.KeepMembership | src/main/java/com/george/board/ChessBoard.java:279-292 | a move survives the filter exactly when it is in the input and the player is not in check after it |
| Legality.KeepEmbedding | src/main/java/com/george/board/ChessBoard.java:279-292 | the filter's output is picked from increasing positions of its input |
| Legality.KeepIsSubsequence | src/main/java/com/george/board/ChessBoard.java:279-292 | the filter's output is a subsequence of its input |
| Legality.KeepGuarded | src/main/java/com/george/board/ChessBoard.java:485-487 | with the flag set, the filter drops nothing |
| Legality.FilteredStep | src/main/java/com/george/board/ChessBoard.java:270-295 | one more square of the scan adds the filtered moves of that square at the end |
| Legality.LegalIsSubsequence | src/main/java/com/george/board/ChessBoard.java:266-298 | getAllLegalMoves returns some of the pseudo-legal moves, in scan order |
| Legality.GuardedLegalIsPseudo | src/main/java/com/george/board/ChessBoard.java:484-487 | getAllLegalMoves entered with the flag set returns every pseudo-legal move |
| Legality.LegalMembership | src/main/java/com/george/board/ChessBoard.java:266-298 | a move is returned exactly when it is pseudo-legal and the player is not in check after playing it |
| Legality.InCheckIsPseudoAttack | src/main/java/com/george/board/ChessBoard.java:484-520 | a top-level isInCheck is true exactly when a pseudo-legal move of the opponent lands on the player's first king |
| Legality.PseudoLandsIsAttack | src/main/java/com/george/board/ChessBoard.java:509-516 | a pseudo-legal move of a side lands on a square exactly when one of its pieces generates a move there |
| Legality.AttackedSquareInRange | src/main/java/com/george/board/ChessBoard.java:509-516 | an attacked square is on the board |
| Legality.InCheckIsAttack | src/main/java/com/george/board/ChessBoard.java:484-520 | a top-level isInCheck is true exactly when the player has a king and a piece of the opponent generates a move onto it |
| Legality.NoKingNotInCheck | src/main/java/com/george/board/ChessBoard.java:492-516 | without a king the player is never in check, whatever the flag |
| Legality.LegalMovesExact | src/main/java/com/george/board/ChessBoard.java:266-298 | a move is legal exactly when it is pseudo-legal and, after it, the player has no king or no opposing piece generates a move onto it |
| Legality.GeneratedMoveUndo | src/main/java/com/george/board/ChessBoard.java:281-291 | playing a generated move is a plain relocation, and writing back the piece and the captured code restores the grid |
| Legality.GeneratedMoveCells | src/main/java/com/george/board/ChessBoard.java:281-282 | square by square, playing a generated move moves the piece to the destination, empties the source and changes nothing else |
| Legality.SimulationUndo | src/main/java/com/george/board/ChessBoard.java:279-292 | the same for every pseudo-legal move of the player |
| Legality.LegalMoveShape | src/main/java/com/george/board/ChessBoard.java:266-298 | every legal move starts on one of the player's pieces and lands on a different on-board square holding none |
| Notation.Wrap32 | src/main/java/com/george/board/ChessBoard.java:477-478 | Java int arithmetic agrees with exact arithmetic in range and is congruent to it modulo 2^32 |
| Notation.ToChar | src/main/java/com/george/board/ChessBoard.java:477 | the char cast keeps values in 0..65535 and is congruent modulo 2^16 |
| Notation.Digits | src/main/java/com/george/board/ChessBoard.java:479 | the decimal digits of a number are non-empty digit characters without a leading zero |
| Notation.DigitsRoundTrip | src/main/java/com/george/board/ChessBoard.java:479 | reading the digits back gives the number |
| Notation.DecimalString | src/main/java/com/george/board/ChessBoard.java:479 | the decimal text of an int is never empty |
| Notation.DecimalRoundTrip | src/main/java/com/george/board/ChessBoard.java:479 | the text starts with '-' exactly for negative values, and the digits after the sign read back to the magnitude |
| Notation.ToChessNotation | src/main/java/com/george/board/ChessBoard.java:476-480 | the notation is at least two code units long |
| Notation.NotationOnBoard | src/main/java/com/george/board/ChessBoard.java:476-480 | on the board the name is 'a' + col followed by the digit '8' - row |
| Notation.NotationRoundTrip | src/main/java/com/george/board/ChessBoard.java:476-480 | on the board the name has two characters from which the column and the row can be read back |
| Notation.NotationInjective | src/main/java/com/george/board/ChessBoard.java:476-480 | different board squares have different names |
| Notation.NotationAnyInput | src/main/java/com/george/board/ChessBoard.java:476-480 | for any ints the first unit is 'a' + col modulo 2^16 and the rest is the decimal text of the wrapped 8 - row |
| Notation.PieceCharRoundTrip | src/main/java/com/george/board/ChessBoard.java:212-252 | every code in -6..6 prints as a character it can be read back from; exactly the non-piece codes print '*'; no code prints a newline |
| Notation.RenderAt | src/main/java/com/george/board/ChessBoard.java:204-258 | toString is 72 characters: position 9*r + c holds the character of square (r, c) and position 9*r + 8 a newline |
| Notation.RenderInjective | src/main/java/com/george/board/ChessBoard.java:204-258 | on grids of codes in -6..6, different grids print differently |
| Chess.ChessBoard.constructor | src/main/java/com/george/board/ChessBoard.java:45-62 | the board starts in the standard position, White to move, the flag clear |
| Chess.ChessBoard.GetBoard | src/main/java/com/george/board/ChessBoard.java:72-78 | getBoard returns a fresh 8x8 array equal to the board square by square |
| Chess.ChessBoard.GetBoardArray | src/main/java/com/george/board/ChessBoard.java:87-98 | getBoardArray returns a fresh 65-slot array whose first 64 slots are the board row-major and whose slot 64 is 0 |
| Chess.ChessBoard.MovePiece | src/main/java/com/george/board/ChessBoard.java:110-146 | movePiece changes the board to the grid described by the movePiece semantics (no-ops, castling, relocation) |
| Chess.ChessBoard.RemovePiece | src/main/java/com/george/board/ChessBoard.java:154-160 | removePiece empties an on-board square and does nothing off the board |
| Chess.ChessBoard.AddPiece | src/main/java/com/george/board/ChessBoard.java:170-176 | addPiece stores the code on an on-board square and does nothing off the board |
| Chess.ChessBoard.Write | src/main/java/com/george/board/ChessBoard.java:290-291 | the undo's array store sets exactly one square |
| Chess.ChessBoard.NextMove | src/main/java/com/george/board/ChessBoard.java:181-187 | nextMove passes the turn to the other side and leaves the flag alone |
| Chess.ChessBoard.CurrentPlayer | src/main/java/com/george/board/ChessBoard.java:194-196 | currentPlayer returns the side to move |
| Chess.ChessBoard.ToString | src/main/java/com/george/board/ChessBoard.java:204-258 | toString's loops build the 8-line rendering of the board |
| Chess.ChessBoard.AddPawnMoves | src/main/java/com/george/board/ChessBoard.java:339-360 | addPawnMoves appends the pawn moves: forward moves, then the left and right captures |
| Chess.ChessBoard.AddPawnCapture | src/main/java/com/george/board/ChessBoard.java:354-359 | one capture test appends the diagonal move exactly when an opponent's piece stands there |
| Chess.ChessBoard.AddStepMoves | src/main/java/com/george/board/ChessBoard.java:371-377 | the offset loop appends, in offset order, the moves to on-board non-friendly squares |
| Chess.ChessBoard.AddKnightMoves | src/main/java/com/george/board/ChessBoard.java:366-378 | addKnightMoves appends the knight moves over the knight's eight offsets |
| Chess.ChessBoard.AddKingMoves | src/main/java/com/george/board/ChessBoard.java:391-403 | addKingMoves appends the king moves over the eight neighbouring offsets |
| Chess.ChessBoard.AddLinearMoves | src/main/java/com/george/board/ChessBoard.java:406-419 | addLinearMoves appends the ray of each direction in turn |
| Chess.ChessBoard.AddRay | src/main/java/com/george/board/ChessBoard.java:408-417 | the while loop for one direction appends exactly that direction's ray |
| Chess.ChessBoard.AddRookMoves | src/main/java/com/george/board/ChessBoard.java:362-364 | addRookMoves appends the rays of the four orthogonal directions |
| Chess.ChessBoard.AddBishopMoves | src/main/java/com/george/board/ChessBoard.java:380-382 | addBishopMoves appends the rays of the four diagonal directions |
| Chess.ChessBoard.AddQueenMoves | src/main/java/com/george/board/ChessBoard.java:384-389 | addQueenMoves appends the rays of all eight directions |
| Chess.ChessBoard.GetMovesForPiece | src/main/java/com/george/board/ChessBoard.java:309-336 | getMovesForPiece returns the generated moves for the code's magnitude |
| Chess.ChessBoard.GetAllLegalMoves | src/main/java/com/george/board/ChessBoard.java:266-298 | getAllLegalMoves returns the filter of the player's pseudo-legal moves and leaves the board, the flag and the turn as they were |
| Chess.ChessBoard.ScanSquare | src/main/java/com/george/board/ChessBoard.java:272-293 | one square of the scan yields the filtered moves of the player's piece there, or nothing |
| Chess.ChessBoard.KeepLegal | src/main/java/com/george/board/ChessBoard.java:279-292 | the loop over one piece's moves keeps, in order, those after which the player is not in check, and restores the board |
| Chess.ChessBoard.SimulateMove | src/main/java/com/george/board/ChessBoard.java:280-291 | one simulate-test-undo pass reports whether the player survives the move and leaves the board as it was |
| Chess.ChessBoard.FindKingSquare | src/main/java/com/george/board/ChessBoard.java:492-505 | the two king-search loops with their breaks return the player's first king row-major, or (-1, -1) |
| Chess.ChessBoard.AnyLandsOn | src/main/java/com/george/board/ChessBoard.java:508-516 | the attack loop reports whether some move ends on the king's square |
| Chess.ChessBoard.IsInCheck | src/main/java/com/george/board/ChessBoard.java:484-520 | isInCheck returns the guarded check test, and the flag, the board and the turn end as they started |

## Left out

- `printBoardWithIndices` and every `System.out.println` diagnostic: console output only. The diagnostic branches of `movePiece`, `addPiece` and `removePiece` are modelled as silent no-ops.
- The Stockfish connector, the game loop and the JavaFX start-up: process I/O, threads and the user interface. They are not part of this model.
- The board and the turn are `static` fields in the source, shared by every `ChessBoard` object and by the game and UI threads, while `checkingForCheck` is per object. The model has one object accessed by one thread. Aliasing between objects and concurrent access are not modelled.
- Piece codes are unbounded integers. The source stores Java `int`s, but it does no arithmetic on a code except `Math.abs`, and even the overflowing `Math.abs(Integer.MIN_VALUE)` falls outside 1..6.
- The source's `List<int[]>` move lists are modelled as `seq<Move>`. The methods return the extended list instead of appending to a shared one.
- `isValidMove`, `isFriendlyPiece` and `isOpponentPiece` are modelled as the predicates `Board.InRange`, `Board.IsFriendly` and `Board.IsOpponent`. They take the square's code rather than its coordinates.
- Chess.ChessBoard.GetBoard: returns an `array2<int>` rather than an array of row arrays, so it says nothing about the rows being distinct objects.
- An inverse of `toChessNotation` (a square-name parser) is not part of this model. Only injectivity on the board is proved.
- Rules the source does not implement are not modelled: en passant, promotion, castling rights, attacked-square tests for castling, stalemate.
