/**
 * Text produced by the board: the algebraic name of a square
 * (toChessNotation) and the 8-line picture of the grid (toString).
 *
 * toChessNotation works on Java ints and chars: 'a' + col and 8 - row are
 * 32-bit additions that wrap, and the cast to char keeps the low 16 bits,
 * so its result is modelled as a sequence of UTF-16 code units. toString
 * only ever emits ASCII, so it is modelled as a Dafny string.
 */
module Notation {
  import opened Board

  /** A Java int. */
  newtype Int32 = x: int | -0x8000_0000 <= x < 0x8000_0000

  /** A Java char: one UTF-16 code unit. */
  newtype CodeUnit = x: int | 0 <= x < 0x1_0000

  /** A Java String, as its code units. */
  type JavaString = seq<CodeUnit>

  /** Java int arithmetic: x reduced modulo 2^32 into the signed range. */
  function Wrap32(x: int): (w: Int32)
    ensures -0x8000_0000 <= x < 0x8000_0000 ==> w as int == x
    ensures (w as int - x) % 0x1_0000_0000 == 0
  {
    (((x + 0x8000_0000) % 0x1_0000_0000) - 0x8000_0000) as Int32
  }

  /** A Java (char) cast of an int: its low 16 bits. */
  function ToChar(x: Int32): (u: CodeUnit)
    ensures 0 <= x as int < 0x1_0000 ==> u as int == x as int
    ensures (u as int - x as int) % 0x1_0000 == 0
  {
    ((x as int) % 0x1_0000) as CodeUnit
  }

  /** The code unit of an ASCII character. */
  function Ascii(ch: char): CodeUnit
    requires ch as int < 0x80
  {
    ch as int as CodeUnit
  }

  // ------------------------------------------------------------ decimal

  /** Every code unit of s is one of '0'..'9'. */
  predicate IsDigits(s: JavaString) {
    forall i :: 0 <= i < |s| ==> 48 <= s[i] as int <= 57
  }

  /** The decimal digits of n, most significant first, without leading zeros. */
  function Digits(n: nat): (s: JavaString)
    ensures |s| >= 1
    ensures IsDigits(s)
    ensures n > 0 ==> s[0] as int != 48
  {
    if n < 10 then [(48 + n) as CodeUnit]
    else Digits(n / 10) + [(48 + n % 10) as CodeUnit]
  }

  /** The number a string of decimal digits denotes. */
  function DigitsValue(s: JavaString): nat
    requires IsDigits(s)
  {
    if s == [] then 0 else 10 * DigitsValue(s[..|s| - 1]) + (s[|s| - 1] as int - 48)
  }

  /** Reading the digits back gives the number. */
  lemma {:induction false} DigitsRoundTrip(n: nat)
    ensures DigitsValue(Digits(n)) == n
  {
    if n >= 10 {
      DigitsRoundTrip(n / 10);
      var s := Digits(n);
      assert s[..|s| - 1] == Digits(n / 10);
    }
  }

  /** Integer.toString of a Java int: a minus sign for negative values, then the digits. */
  function DecimalString(x: Int32): (s: JavaString)
    ensures |s| >= 1
  {
    if x < 0 then [Ascii('-')] + Digits(-(x as int)) else Digits(x as int)
  }

  /** The decimal reading of Integer.toString(x) gives x back. */
  lemma DecimalRoundTrip(x: Int32)
    ensures DecimalString(x)[0] == Ascii('-') <==> x < 0
    ensures x < 0 ==> DigitsValue(DecimalString(x)[1..]) == -(x as int)
    ensures x >= 0 ==> DigitsValue(DecimalString(x)) == x as int
  {
    if x < 0 {
      var d := Digits(-(x as int));
      DigitsRoundTrip(-(x as int));
      assert DecimalString(x) == [Ascii('-')] + d;
      assert ([Ascii('-')] + d)[1..] == d;
    } else {
      var d := Digits(x as int);
      DigitsRoundTrip(x as int);
      assert DecimalString(x) == d;
      assert 48 <= d[0] as int <= 57;
    }
  }

  // ------------------------------------------------------- square names

  /** toChessNotation(row, col): the file letter 'a' + col, then the rank 8 - row in decimal. */
  function ToChessNotation(row: Int32, col: Int32): (s: JavaString)
    ensures |s| >= 2
  {
    [ToChar(Wrap32(97 + col as int))] + DecimalString(Wrap32(8 - row as int))
  }

  /**
   * On the board the name is a letter 'a'..'h' for columns 0..7 followed by a
   * digit '8'..'1' for rows 0..7.
   */
  lemma NotationOnBoard(row: Int32, col: Int32)
    requires InRange(row as int, col as int)
    ensures ToChessNotation(row, col) == [Ascii('a') + col as CodeUnit, Ascii('8') - row as CodeUnit]
  {
  }

  /** Column and row can be read back from the name of a board square. */
  lemma NotationRoundTrip(row: Int32, col: Int32)
    requires InRange(row as int, col as int)
    ensures |ToChessNotation(row, col)| == 2
    ensures ToChessNotation(row, col)[0] as int - 97 == col as int
    ensures 56 - ToChessNotation(row, col)[1] as int == row as int
  {
    NotationOnBoard(row, col);
  }

  /** Different squares of the board have different names. */
  lemma NotationInjective(r1: Int32, c1: Int32, r2: Int32, c2: Int32)
    requires InRange(r1 as int, c1 as int) && InRange(r2 as int, c2 as int)
    requires ToChessNotation(r1, c1) == ToChessNotation(r2, c2)
    ensures r1 == r2 && c1 == c2
  {
    NotationRoundTrip(r1, c1);
    NotationRoundTrip(r2, c2);
  }

  /**
   * Off the board the same arithmetic runs unchecked: for any ints the name
   * is the wrapped-around letter code followed by Integer.toString of the
   * wrapped-around rank.
   */
  lemma NotationAnyInput(row: Int32, col: Int32)
    ensures var s := ToChessNotation(row, col);
      && (s[0] as int - (97 + col as int)) % 0x1_0000 == 0
      && s[1..] == DecimalString(Wrap32(8 - row as int))
  {
    var w := Wrap32(97 + col as int);
    assert (w as int - (97 + col as int)) % 0x1_0000_0000 == 0;
    assert (ToChar(w) as int - w as int) % 0x1_0000 == 0;
    ModTransitive(ToChar(w) as int, w as int, 97 + col as int);
  }

  /** Congruence modulo 2^16 follows from congruence modulo 2^16 and 2^32. */
  lemma ModTransitive(a: int, b: int, c: int)
    requires (a - b) % 0x1_0000 == 0 && (b - c) % 0x1_0000_0000 == 0
    ensures (a - c) % 0x1_0000 == 0
  {
    var k :| b - c == 0x1_0000_0000 * k by {
      assert b - c == 0x1_0000_0000 * ((b - c) / 0x1_0000_0000);
    }
    var j :| a - b == 0x1_0000 * j by {
      assert a - b == 0x1_0000 * ((a - b) / 0x1_0000);
    }
    assert a - c == 0x1_0000 * (j + 0x1_0000 * k);
  }

  // ------------------------------------------------------------ toString

  /** The character toString prints for a piece code: '*' for anything that is not a piece. */
  function PieceChar(piece: int): char {
    match piece
    case -1 => 'p'
    case -2 => 'r'
    case -3 => 'n'
    case -4 => 'b'
    case -5 => 'q'
    case -6 => 'k'
    case 1 => 'P'
    case 2 => 'R'
    case 3 => 'N'
    case 4 => 'B'
    case 5 => 'Q'
    case 6 => 'K'
    case _ => '*'
  }

  /** The piece code a printed character stands for, '*' read as an empty square. */
  function PieceOf(ch: char): int {
    match ch
    case 'p' => -1
    case 'r' => -2
    case 'n' => -3
    case 'b' => -4
    case 'q' => -5
    case 'k' => -6
    case 'P' => 1
    case 'R' => 2
    case 'N' => 3
    case 'B' => 4
    case 'Q' => 5
    case 'K' => 6
    case _ => 0
  }

  /**
   * Every code in -6..6 is printed as a character it can be read back from;
   * exactly the codes that are not pieces print as '*'.
   */
  lemma PieceCharRoundTrip(piece: int)
    ensures -6 <= piece <= 6 ==> PieceOf(PieceChar(piece)) == piece
    ensures PieceChar(piece) == '*' <==> !(1 <= Abs(piece) <= 6)
    ensures PieceChar(piece) != '\n'
  {
  }

  /** The characters for the first n squares of a row. */
  function RowText(row: seq<int>, n: nat): string
    requires n <= |row|
  {
    if n == 0 then [] else RowText(row, n - 1) + [PieceChar(row[n - 1])]
  }

  /** The first n lines of toString: each row's characters and a newline. */
  function RenderRows(g: Grid, n: nat): string
    requires n <= 8
  {
    if n == 0 then [] else RenderRows(g, n - 1) + RowText(g[n - 1], 8) + "\n"
  }

  /** toString of the board. */
  function Render(g: Grid): string {
    RenderRows(g, 8)
  }

  lemma {:induction false} RowTextAt(row: seq<int>, n: nat, c: int)
    requires n <= |row| && 0 <= c < n
    ensures |RowText(row, n)| == n
    ensures RowText(row, n)[c] == PieceChar(row[c])
  {
    RowTextLength(row, n - 1);
    if c < n - 1 {
      RowTextAt(row, n - 1, c);
    }
  }

  lemma {:induction false} RowTextLength(row: seq<int>, n: nat)
    requires n <= |row|
    ensures |RowText(row, n)| == n
  {
    if n > 0 {
      RowTextLength(row, n - 1);
    }
  }

  lemma {:induction false} RenderRowsLength(g: Grid, n: nat)
    requires n <= 8
    ensures |RenderRows(g, n)| == 9 * n
  {
    if n > 0 {
      RenderRowsLength(g, n - 1);
      RowTextLength(g[n - 1], 8);
    }
  }

  lemma {:induction false} RenderRowsAt(g: Grid, n: nat, r: int, c: int)
    requires n <= 8 && 0 <= r < n && 0 <= c <= 8
    ensures |RenderRows(g, n)| == 9 * n
    ensures RenderRows(g, n)[9 * r + c] == if c < 8 then PieceChar(g[r][c]) else '\n'
  {
    RenderRowsLength(g, n);
    RenderRowsLength(g, n - 1);
    RowTextLength(g[n - 1], 8);
    if r < n - 1 {
      RenderRowsAt(g, n - 1, r, c);
    } else if c < 8 {
      RowTextAt(g[r], 8, c);
    }
  }

  /**
   * toString is 8 lines of 8 characters: position 9*r + c holds the
   * character of square (r, c) and position 9*r + 8 a newline.
   */
  lemma RenderAt(g: Grid, r: int, c: int)
    requires 0 <= r < 8 && 0 <= c <= 8
    ensures |Render(g)| == 72
    ensures Render(g)[9 * r + c] == if c < 8 then PieceChar(g[r][c]) else '\n'
  {
    RenderRowsAt(g, 8, r, c);
  }

  /** Every code of the grid is empty or a piece. */
  predicate WellFormed(g: Grid) {
    forall r, c :: 0 <= r < 8 && 0 <= c < 8 ==> -6 <= g[r][c] <= 6
  }

  /** On grids of real codes, toString loses nothing: different grids print differently. */
  lemma RenderInjective(g1: Grid, g2: Grid)
    requires WellFormed(g1) && WellFormed(g2)
    requires Render(g1) == Render(g2)
    ensures g1 == g2
  {
    forall r, c | 0 <= r < 8 && 0 <= c < 8
      ensures g1[r][c] == g2[r][c]
    {
      RenderAt(g1, r, c);
      RenderAt(g2, r, c);
      PieceCharRoundTrip(g1[r][c]);
      PieceCharRoundTrip(g2[r][c]);
    }
    assert forall r | 0 <= r < 8 :: g1[r] == g2[r];
  }
}
