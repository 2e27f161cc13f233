/** The two helpers of chess-board/src/components/utils.ts: the name of a
    board square and the image file name of a piece in a style. */
module Utils {

  /** The decimal text JavaScript gives an integer (`String(n)`), for
      |n| < 10^21; from 10^21 on JavaScript writes the exponent form
      ("1e+21"), which is not modelled. */
  function IntToString(n: int): (r: string)
    ensures r != []
  {
    if n < 0 then "-" + NatToString(-n) else NatToString(n)
  }

  function NatToString(n: nat): (r: string)
    ensures r != [] && forall i | 0 <= i < |r| :: '0' <= r[i] <= '9'
  {
    if n < 10 then [Digit(n)] else NatToString(n / 10) + [Digit(n % 10)]
  }

  function Digit(d: nat): (c: char)
    requires d < 10
    ensures '0' <= c <= '9'
  {
    ('0' as int + d) as char
  }

  /** A one-digit number is written as that digit. */
  lemma SmallIntToString(n: int)
    requires 0 <= n < 10
    ensures IntToString(n) == [Digit(n)]
  {
  }

  const Files: string := "abcdefgh"

  /** `toSquare(row, col)`: `files[col] + (8 - row)`, where row 0 is the top
      of the board (rank 8) and column 0 its left edge (file a). A row off the
      board still gives a letter and the text of a number. For a column off
      the board `files[col]` is `undefined`, so `+` adds numbers instead of
      joining text, and the result is the number NaN. Here it is written as
      its text "NaN", because in the source it is equal to no string under
      `===`. */
  function ToSquare(row: int, col: int): (r: string)
    ensures |r| >= 2
  {
    if 0 <= col < |Files| then [Files[col]] + IntToString(8 - row) else NaNText
  }

  /** `String(NaN)`, which stands for the NaN an off-board column gives. */
  const NaNText: string := "NaN"

  predicate OnBoard(row: int, col: int) {
    0 <= row < 8 && 0 <= col < 8
  }

  /** A square name: a file letter `a`–`h` and a rank digit `1`–`8`. */
  predicate IsSquareName(s: string) {
    |s| == 2 && 'a' <= s[0] <= 'h' && '1' <= s[1] <= '8'
  }

  datatype Coords = Coords(row: int, col: int)

  /** The coordinates a square name stands for: the inverse of `ToSquare`. */
  function FromSquare(s: string): (c: Coords)
    requires IsSquareName(s)
    ensures OnBoard(c.row, c.col)
  {
    Coords(8 - (s[1] as int - '0' as int), s[0] as int - 'a' as int)
  }

  /** On the board a square name is the column's file letter and the digit
      `8 - row`. */
  lemma SquareShape(row: int, col: int)
    requires OnBoard(row, col)
    ensures ToSquare(row, col) == [Files[col], Digit(8 - row)]
    ensures IsSquareName(ToSquare(row, col))
  {
    SmallIntToString(8 - row);
  }

  /** Row 7 is rank 1 and column 0 is file a; row 0 is rank 8 and column 7
      file h. */
  lemma Corners()
    ensures ToSquare(7, 0) == "a1" && ToSquare(0, 7) == "h8"
    ensures ToSquare(0, 0) == "a8" && ToSquare(7, 7) == "h1"
  {
    SquareShape(7, 0);
    SquareShape(0, 7);
    SquareShape(0, 0);
    SquareShape(7, 7);
  }

  /** `FromSquare` undoes `ToSquare` on the board ... */
  lemma FromToSquare(row: int, col: int)
    requires OnBoard(row, col)
    ensures FromSquare(ToSquare(row, col)) == Coords(row, col)
  {
    SquareShape(row, col);
  }

  /** ... and `ToSquare` undoes `FromSquare` on every square name, so
      `ToSquare` maps the 8x8 grid one-to-one onto the 64 names. */
  lemma ToFromSquare(s: string)
    requires IsSquareName(s)
    ensures ToSquare(FromSquare(s).row, FromSquare(s).col) == s
  {
    var c := FromSquare(s);
    SquareShape(c.row, c.col);
  }

  lemma ToSquareInjective(r1: int, c1: int, r2: int, c2: int)
    requires OnBoard(r1, c1) && OnBoard(r2, c2)
    requires ToSquare(r1, c1) == ToSquare(r2, c2)
    ensures r1 == r2 && c1 == c2
  {
    FromToSquare(r1, c1);
    FromToSquare(r2, c2);
  }

  /** Every name is reached from some square of the grid. */
  lemma ToSquareOnto(s: string)
    requires IsSquareName(s)
    ensures exists row, col | OnBoard(row, col) :: ToSquare(row, col) == s
  {
    ToFromSquare(s);
  }

  /** Off the board the name is not a square name: a column outside 0..7
      gives NaN, a row outside 0..7 a rank outside 1..8. */
  lemma OffBoardName(row: int, col: int)
    requires !OnBoard(row, col)
    ensures !IsSquareName(ToSquare(row, col))
  {
    var r := ToSquare(row, col);
    var n := 8 - row;
    if 0 <= col < |Files| && 0 < n < 10 {
      SmallIntToString(n);
    } else if 0 <= col < |Files| && n >= 10 {
      assert |NatToString(n)| >= 2 by { assert NatToString(n) == NatToString(n / 10) + [Digit(n % 10)]; }
    } else if 0 <= col < |Files| {
      assert n <= 0;
      if n < 0 {
        assert r[1] == '-';
      } else {
        assert r[1] == '0';
      }
    } else {
      assert r == NaNText;
    }
  }

  // ---------------------------------------------------------------------
  // Piece images.

  /** The file names of the "mono" style: a white piece's type letter in
      upper case, a black piece's in lower case. */
  const MonoTable: map<string, string> := map[
    "wp" := "P", "wr" := "R", "wn" := "N", "wb" := "B", "wq" := "Q", "wk" := "K",
    "bp" := "p", "br" := "r", "bn" := "n", "bb" := "b", "bq" := "q", "bk" := "k"]

  /** `getPieceFilename(styleName, piece)`: the mono table's entry for the
      piece code, or the code itself when the style is another or the code is
      not in the table (every entry is non-empty, so `|| piece` applies only
      to missing codes). */
  function GetPieceFilename(styleName: string, piece: string): string {
    if styleName == "mono" && piece in MonoTable then MonoTable[piece] else piece
  }

  /** The piece codes `<colour><type>` of the board, colour `w` or `b` and
      type one of `p n b r q k`. */
  predicate IsPieceCode(piece: string) {
    |piece| == 2 && (piece[0] == 'w' || piece[0] == 'b')
    && (piece[1] == 'p' || piece[1] == 'n' || piece[1] == 'b' || piece[1] == 'r' || piece[1] == 'q' || piece[1] == 'k')
  }

  /** Any style but "mono" uses the code itself. */
  lemma OtherStyleKeepsCode(styleName: string, piece: string)
    requires styleName != "mono"
    ensures GetPieceFilename(styleName, piece) == piece
  {
  }

  /** The mono table covers exactly the twelve piece codes. */
  lemma MonoKeys(piece: string)
    ensures piece in MonoTable <==> IsPieceCode(piece)
  {
    if IsPieceCode(piece) {
      assert piece == [piece[0], piece[1]];
    }
  }

  /** In "mono" a piece code becomes its type letter, upper case for white
      and lower case for black. */
  lemma MonoFilename(piece: string)
    requires IsPieceCode(piece)
    ensures GetPieceFilename("mono", piece)
         == [if piece[0] == 'w' then (piece[1] as int - 32) as char else piece[1]]
  {
    MonoKeys(piece);
    assert piece == [piece[0], piece[1]];
  }

  /** In "mono" a code outside the table is its own file name. */
  lemma MonoOtherCode(piece: string)
    requires !IsPieceCode(piece)
    ensures GetPieceFilename("mono", piece) == piece
  {
    MonoKeys(piece);
  }

  /** Distinct piece codes get distinct mono file names. */
  lemma MonoInjective(a: string, b: string)
    requires IsPieceCode(a) && IsPieceCode(b) && a != b
    ensures GetPieceFilename("mono", a) != GetPieceFilename("mono", b)
  {
    MonoFilename(a);
    MonoFilename(b);
    assert a == [a[0], a[1]] && b == [b[0], b[1]];
  }

  /** The file names do not separate codes from non-codes: the mono name of
      every piece code is a single letter, itself no code, whose own mono
      name is that same letter ("wp" and "P" both give "P"). */
  lemma MonoNamesShared(piece: string)
    requires IsPieceCode(piece)
    ensures var name := GetPieceFilename("mono", piece);
      && !IsPieceCode(name) && name != piece
      && GetPieceFilename("mono", name) == name
  {
    MonoFilename(piece);
    MonoOtherCode(GetPieceFilename("mono", piece));
  }
}
