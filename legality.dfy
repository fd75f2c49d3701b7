/**
 * Legal moves and check detection. The source computes both with a pair of
 * mutually recursive methods and a boolean flag, checkingForCheck: while
 * the flag is set, a check query answers "not in check" at once, so the
 * nested move list computed inside a check query keeps every pseudo-legal
 * move. The functions here take the flag's value on entry as `guard`.
 */
module Legality {
  import opened Board
  import opened MoveGen

  /** The grid after the simulated move m (movePiece on its coordinates). */
  function Play(g: Grid, m: Move): Grid {
    ApplyMove(g, m.fromRow, m.fromCol, m.toRow, m.toCol)
  }

  /** Some move of ms ends on (r, c). */
  predicate LandsOn(ms: seq<Move>, r: int, c: int) {
    exists i :: 0 <= i < |ms| && ms[i].toRow == r && ms[i].toCol == c
  }

  // ------------------------------------------------------------ the king

  /** p has a king somewhere on the board. */
  ghost predicate HasKing(g: Grid, p: Player) {
    exists r, c :: InRange(r, c) && IsKingOf(p, g[r][c])
  }

  /** Square (r, c) is reached by the row-major scan no earlier than (r0, c0). */
  predicate AtOrAfter(r: int, c: int, r0: int, c0: int) {
    r > r0 || (r == r0 && c >= c0)
  }

  /** p's king on (r, c) is the first one the row-major scan meets. */
  ghost predicate FirstKing(g: Grid, p: Player, r: int, c: int) {
    && InRange(r, c) && IsKingOf(p, g[r][c])
    && forall r', c' :: InRange(r', c') && Before(r', c', r, c) ==> !IsKingOf(p, g[r'][c'])
  }

  /**
   * The king search of isInCheck continued from scan position (r, c): the
   * first square at or after (r, c) holding p's king, or (-1, -1) when the
   * rest of the board holds none.
   */
  function KingFrom(g: Grid, p: Player, r: int, c: int): (k: (int, int))
    requires ScanPos(r, c)
    ensures (exists r', c' :: InRange(r', c') && AtOrAfter(r', c', r, c) && IsKingOf(p, g[r'][c'])) ==>
      && InRange(k.0, k.1) && AtOrAfter(k.0, k.1, r, c) && IsKingOf(p, g[k.0][k.1])
      && forall r', c' :: InRange(r', c') && AtOrAfter(r', c', r, c) && Before(r', c', k.0, k.1) ==> !IsKingOf(p, g[r'][c'])
    ensures !(exists r', c' :: InRange(r', c') && AtOrAfter(r', c', r, c) && IsKingOf(p, g[r'][c'])) ==> k == (-1, -1)
    decreases 8 - r, 8 - c
  {
    if r == 8 then (-1, -1)
    else if c == 8 then KingFrom(g, p, r + 1, 0)
    else if IsKingOf(p, g[r][c]) then (r, c)
    else KingFrom(g, p, r, c + 1)
  }

  /** Where isInCheck finds p's king: the first one in row-major order, (-1, -1) if there is none. */
  function FindKing(g: Grid, p: Player): (k: (int, int))
    ensures HasKing(g, p) ==> FirstKing(g, p, k.0, k.1)
    ensures !HasKing(g, p) ==> k == (-1, -1)
  {
    KingFrom(g, p, 0, 0)
  }

  /** At most one square is the first king. */
  lemma FirstKingUnique(g: Grid, p: Player, r1: int, c1: int, r2: int, c2: int)
    requires FirstKing(g, p, r1, c1) && FirstKing(g, p, r2, c2)
    ensures r1 == r2 && c1 == c2
  {
  }

  // ------------------------------------- getAllLegalMoves and isInCheck

  /**
   * isInCheck(p) entered with the flag at `guard`: false at once when the
   * flag is set; otherwise whether a move of the opponent's list, built
   * with the flag set, ends on the square where p's king was found.
   */
  function InCheckGuarded(g: Grid, p: Player, guard: bool): bool
    decreases if guard then 0 else 1, 0, 0
  {
    if guard then false
    else LandsOn(LegalMovesGuarded(g, Other(p), true), FindKing(g, p).0, FindKing(g, p).1)
  }

  /** The simulated move m does not leave p in check (the test getAllLegalMoves applies). */
  predicate Survives(g: Grid, p: Player, guard: bool, m: Move)
    decreases if guard then 0 else 1, 1, 0
  {
    !InCheckGuarded(Play(g, m), p, guard)
  }

  /** The moves of ms, in order, after which p is not in check (the filter of getAllLegalMoves). */
  function Keep(g: Grid, p: Player, guard: bool, ms: seq<Move>): seq<Move>
    decreases if guard then 0 else 1, 1, |ms| + 1
  {
    if ms == [] then []
    else
      var m := ms[|ms| - 1];
      Keep(g, p, guard, ms[..|ms| - 1]) + (if Survives(g, p, guard, m) then [m] else [])
  }

  /** getAllLegalMoves(p) entered with the flag at `guard`. */
  function LegalMovesGuarded(g: Grid, p: Player, guard: bool): seq<Move>
    decreases if guard then 0 else 1, 2, 0
  {
    Keep(g, p, guard, PseudoLegalMoves(g, p))
  }

  /** The legal moves of p as a caller sees them (the flag is clear between calls). */
  function LegalMoves(g: Grid, p: Player): seq<Move> {
    LegalMovesGuarded(g, p, false)
  }

  /** Whether p is in check as a caller sees it. */
  function InCheck(g: Grid, p: Player): bool {
    InCheckGuarded(g, p, false)
  }

  // ------------------------------------------------------------ the filter

  /** Keep is an order-preserving filter: it distributes over concatenation. */
  lemma {:induction false} KeepAppend(g: Grid, p: Player, guard: bool, a: seq<Move>, b: seq<Move>)
    ensures Keep(g, p, guard, a + b) == Keep(g, p, guard, a) + Keep(g, p, guard, b)
    decreases |b|
  {
    if b == [] {
      assert a + b == a;
    } else {
      var n := |b| - 1;
      assert (a + b)[..|a + b| - 1] == a + b[..n];
      assert (a + b)[|a + b| - 1] == b[n];
      KeepAppend(g, p, guard, a, b[..n]);
    }
  }

  /** A move survives Keep exactly when it is in the input and p is not in check after it. */
  lemma {:induction false} KeepMembership(g: Grid, p: Player, guard: bool, ms: seq<Move>, m: Move)
    ensures m in Keep(g, p, guard, ms) <==> m in ms && Survives(g, p, guard, m)
    decreases |ms|
  {
    if ms != [] {
      var n := |ms| - 1;
      KeepMembership(g, p, guard, ms[..n], m);
      assert ms == ms[..n] + [ms[n]];
    }
  }

  /** idx lists, in increasing order, positions of b that spell out a. */
  ghost predicate Embeds(idx: seq<int>, a: seq<Move>, b: seq<Move>) {
    && |idx| == |a|
    && (forall i :: 0 <= i < |idx| ==> 0 <= idx[i] < |b| && b[idx[i]] == a[i])
    && (forall i, j :: 0 <= i < j < |idx| ==> idx[i] < idx[j])
  }

  /** a is b with some elements dropped and the rest kept in order. */
  ghost predicate IsSubsequence(a: seq<Move>, b: seq<Move>) {
    exists idx :: Embeds(idx, a, b)
  }

  /** The positions of ms whose moves Keep retains. */
  lemma {:induction false} KeepEmbedding(g: Grid, p: Player, guard: bool, ms: seq<Move>) returns (idx: seq<int>)
    ensures Embeds(idx, Keep(g, p, guard, ms), ms)
    decreases |ms|
  {
    if ms == [] {
      idx := [];
    } else {
      var n := |ms| - 1;
      var prev := KeepEmbedding(g, p, guard, ms[..n]);
      idx := if Survives(g, p, guard, ms[n]) then prev + [n] else prev;
    }
  }

  /** Keep's result is a subsequence of its input. */
  lemma KeepIsSubsequence(g: Grid, p: Player, guard: bool, ms: seq<Move>)
    ensures IsSubsequence(Keep(g, p, guard, ms), ms)
  {
    var idx := KeepEmbedding(g, p, guard, ms);
  }

  /** Under the flag nothing is filtered out. */
  lemma {:induction false} KeepGuarded(g: Grid, p: Player, ms: seq<Move>)
    ensures Keep(g, p, true, ms) == ms
    decreases |ms|
  {
    if ms != [] {
      var n := |ms| - 1;
      KeepGuarded(g, p, ms[..n]);
      assert ms == ms[..n] + [ms[n]];
    }
  }

  /**
   * One square of getAllLegalMoves's scan: the filtered moves of the squares
   * before the next one are those before this one followed by the filtered
   * moves of this square's piece.
   */
  lemma FilteredStep(g: Grid, p: Player, guard: bool, r: int, c: int)
    requires InRange(r, c)
    ensures Keep(g, p, guard, ScanBefore(g, p, r, c + 1))
      == Keep(g, p, guard, ScanBefore(g, p, r, c)) + Keep(g, p, guard, SquareMoves(g, p, r, c))
  {
    KeepAppend(g, p, guard, ScanBefore(g, p, r, c), SquareMoves(g, p, r, c));
  }

  /** getAllLegalMoves(p) keeps some of p's pseudo-legal moves, in their scan order. */
  lemma LegalIsSubsequence(g: Grid, p: Player, guard: bool)
    ensures IsSubsequence(LegalMovesGuarded(g, p, guard), PseudoLegalMoves(g, p))
  {
    KeepIsSubsequence(g, p, guard, PseudoLegalMoves(g, p));
  }

  /** With the flag set, getAllLegalMoves returns every pseudo-legal move. */
  lemma GuardedLegalIsPseudo(g: Grid, p: Player)
    ensures LegalMovesGuarded(g, p, true) == PseudoLegalMoves(g, p)
  {
    KeepGuarded(g, p, PseudoLegalMoves(g, p));
  }

  /** A move is legal exactly when it is pseudo-legal and p is not in check after it. */
  lemma LegalMembership(g: Grid, p: Player, guard: bool, m: Move)
    ensures m in LegalMovesGuarded(g, p, guard) <==>
      m in PseudoLegalMoves(g, p) && !InCheckGuarded(Play(g, m), p, guard)
  {
    KeepMembership(g, p, guard, PseudoLegalMoves(g, p), m);
  }

  // ----------------------------------------------------------- the check

  /**
   * p is in check exactly when p's king (the first found) is the target of
   * a pseudo-legal move of the other side: the nested legal-move list never
   * looks at whether the attacker would expose its own king.
   */
  lemma InCheckIsPseudoAttack(g: Grid, p: Player)
    ensures InCheck(g, p) <==> LandsOn(PseudoLegalMoves(g, Other(p)), FindKing(g, p).0, FindKing(g, p).1)
  {
    GuardedLegalIsPseudo(g, Other(p));
  }

  /** Some piece of q on the board generates a move onto (r, c). */
  ghost predicate Attacks(g: Grid, q: Player, r: int, c: int) {
    exists fr, fc :: InRange(fr, fc) && Owns(q, g[fr][fc]) && Move(fr, fc, r, c) in MovesForPiece(g, fr, fc, g[fr][fc])
  }

  /** A pseudo-legal move of q ends on (r, c) exactly when a piece of q attacks that square. */
  lemma PseudoLandsIsAttack(g: Grid, q: Player, r: int, c: int)
    ensures LandsOn(PseudoLegalMoves(g, q), r, c) <==> Attacks(g, q, r, c)
  {
    var ms := PseudoLegalMoves(g, q);
    if LandsOn(ms, r, c) {
      var i :| 0 <= i < |ms| && ms[i].toRow == r && ms[i].toCol == c;
      PseudoLegalExact(g, q, ms[i]);
      assert ms[i] == Move(ms[i].fromRow, ms[i].fromCol, r, c);
    }
    if Attacks(g, q, r, c) {
      var fr, fc :| InRange(fr, fc) && Owns(q, g[fr][fc]) && Move(fr, fc, r, c) in MovesForPiece(g, fr, fc, g[fr][fc]);
      PseudoLegalExact(g, q, Move(fr, fc, r, c));
      var i :| 0 <= i < |ms| && ms[i] == Move(fr, fc, r, c);
    }
  }

  /** An attacked square is on the board. */
  lemma AttackedSquareInRange(g: Grid, q: Player, r: int, c: int)
    requires Attacks(g, q, r, c)
    ensures InRange(r, c)
  {
    var fr, fc :| InRange(fr, fc) && Owns(q, g[fr][fc]) && Move(fr, fc, r, c) in MovesForPiece(g, fr, fc, g[fr][fc]);
    MovesForPieceShape(g, fr, fc, g[fr][fc], Move(fr, fc, r, c));
  }

  /**
   * The same, stated on pieces: p is in check exactly when p has a king and
   * some piece of the other side generates a move onto its square.
   */
  lemma InCheckIsAttack(g: Grid, p: Player)
    ensures InCheck(g, p) <==> HasKing(g, p) && Attacks(g, Other(p), FindKing(g, p).0, FindKing(g, p).1)
  {
    InCheckIsPseudoAttack(g, p);
    PseudoLandsIsAttack(g, Other(p), FindKing(g, p).0, FindKing(g, p).1);
    if Attacks(g, Other(p), FindKing(g, p).0, FindKing(g, p).1) {
      AttackedSquareInRange(g, Other(p), FindKing(g, p).0, FindKing(g, p).1);
    }
  }

  /** Without a king on the board, p is never in check (the search leaves (-1, -1)). */
  lemma NoKingNotInCheck(g: Grid, p: Player, guard: bool)
    requires !HasKing(g, p)
    ensures !InCheckGuarded(g, p, guard)
  {
    if !guard {
      InCheckIsAttack(g, p);
    }
  }

  /**
   * A move is legal for a caller exactly when it is pseudo-legal and, on the
   * board after it, no piece of the other side generates a move onto p's
   * king.
   */
  lemma LegalMovesExact(g: Grid, p: Player, m: Move)
    ensures m in LegalMoves(g, p) <==>
      && m in PseudoLegalMoves(g, p)
      && !(HasKing(Play(g, m), p) && Attacks(Play(g, m), Other(p), FindKing(Play(g, m), p).0, FindKing(Play(g, m), p).1))
  {
    LegalMembership(g, p, false, m);
    InCheckIsAttack(Play(g, m), p);
  }

  // ------------------------------------------------------ the simulation

  /** The simulate-and-undo step of getAllLegalMoves for a move generated by the piece on (row, col). */
  lemma GeneratedMoveUndo(g: Grid, row: int, col: int, m: Move)
    requires InRange(row, col) && m in MovesForPiece(g, row, col, g[row][col])
    ensures m.fromRow == row && m.fromCol == col && InRange(m.toRow, m.toCol)
    ensures Play(g, m) == Relocate(g, row, col, m.toRow, m.toCol)
    ensures Set(Set(Play(g, m), row, col, g[row][col]), m.toRow, m.toCol, g[m.toRow][m.toCol]) == g
  {
    MovesForPieceShape(g, row, col, g[row][col], m);
    UndoRelocate(g, row, col, m.toRow, m.toCol);
  }

  /**
   * Square by square, playing a generated move moves the piece from (row, col)
   * to the destination and touches nothing else.
   */
  lemma GeneratedMoveCells(g: Grid, row: int, col: int, m: Move)
    requires InRange(row, col) && m in MovesForPiece(g, row, col, g[row][col])
    ensures m.fromRow == row && m.fromCol == col && InRange(m.toRow, m.toCol)
    ensures !(m.toRow == row && m.toCol == col)
    ensures forall r, c :: InRange(r, c) ==>
      Play(g, m)[r][c] == if r == m.toRow && c == m.toCol then g[row][col] else if r == row && c == col then 0 else g[r][c]
  {
    MovesForPieceShape(g, row, col, g[row][col], m);
  }

  /**
   * The simulation of a pseudo-legal move is a plain relocation (never the
   * castling branch of movePiece), and getAllLegalMoves's undo (the piece
   * back on its source, the captured code back on the destination) restores
   * the board exactly.
   */
  lemma SimulationUndo(g: Grid, p: Player, m: Move)
    requires m in PseudoLegalMoves(g, p)
    ensures InRange(m.fromRow, m.fromCol) && InRange(m.toRow, m.toCol)
    ensures Play(g, m) == Relocate(g, m.fromRow, m.fromCol, m.toRow, m.toCol)
    ensures Set(Set(Play(g, m), m.fromRow, m.fromCol, g[m.fromRow][m.fromCol]), m.toRow, m.toCol, g[m.toRow][m.toCol]) == g
  {
    PseudoLegalExact(g, p, m);
    GeneratedMoveUndo(g, m.fromRow, m.fromCol, m);
  }

  /**
   * Every legal move starts on one of p's pieces and lands on a different
   * square of the board that holds none of p's pieces.
   */
  lemma LegalMoveShape(g: Grid, p: Player, guard: bool, m: Move)
    requires m in LegalMovesGuarded(g, p, guard)
    ensures InRange(m.fromRow, m.fromCol) && InRange(m.toRow, m.toCol)
    ensures Owns(p, g[m.fromRow][m.fromCol]) && !Owns(p, g[m.toRow][m.toCol])
    ensures !(m.fromRow == m.toRow && m.fromCol == m.toCol)
  {
    LegalMembership(g, p, guard, m);
    PseudoLegalShape(g, p, m);
  }
}
