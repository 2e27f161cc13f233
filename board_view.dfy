/** The per-square computation of the board render
    (chess-board/src/components/Board.tsx): colour, selection, legal-move
    and last-move marks, and the piece image. The JSX itself is not
    modelled, only the values it is built from. */
module BoardView {
  import opened Wrappers
  import opened Utils

  datatype Color = White | Black
  datatype Kind = Pawn | Knight | Bishop | Rook | Queen | King

  /** A piece as the rules engine's `board()` reports it. */
  datatype Piece = Piece(color: Color, kind: Kind)

  function ColorCode(c: Color): char {
    match c
    case White => 'w'
    case Black => 'b'
  }

  function KindCode(k: Kind): char {
    match k
    case Pawn => 'p'
    case Knight => 'n'
    case Bishop => 'b'
    case Rook => 'r'
    case Queen => 'q'
    case King => 'k'
  }

  /** The rows of the board from the top (rank 8), each square empty or
      holding a piece. */
  type Grid = seq<seq<Option<Piece>>>

  /** The local `toSquare` of Board.tsx, written out the same way as the one
      in utils.ts: a letter and the text of `8 - row` for a column of the
      board, and NaN (its text "NaN") for a column off it. */
  function LocalToSquare(row: int, col: int): string {
    if 0 <= col < |Files| then [Files[col]] + IntToString(8 - row) else NaNText
  }

  /** `${square.color}${square.type}`, or "" for an empty square. */
  function PieceCode(square: Option<Piece>): (code: string)
    ensures code == [] <==> square.None?
  {
    match square
    case None => ""
    case Some(p) => [ColorCode(p.color), KindCode(p.kind)]
  }

  /** `(rowIndex + colIndex) % 2 === 1` on the non-negative indices of the
      board. */
  predicate IsBlack(row: nat, col: nat) {
    (row + col) % 2 == 1
  }

  predicate IsSelected(selected: Option<Coords>, row: int, col: int) {
    selected.Some? && selected.value.row == row && selected.value.col == col
  }

  predicate IsLegalMove(legalMoves: seq<string>, row: int, col: int) {
    LocalToSquare(row, col) in legalMoves
  }

  /** The image path of a piece, only for a non-empty piece code. */
  function PieceImage(styleName: string, code: string): Option<string> {
    if code == [] then None
    else Some("/pieces/" + styleName + "/" + GetPieceFilename(styleName, code) + ".svg")
  }

  /** What one square of the board shows. */
  datatype SquareView = SquareView(
    dark: bool, selected: bool, legal: bool, lastMove: bool,
    alt: string, image: Option<string>)

  function RenderSquare(
    square: Option<Piece>, row: nat, col: nat, selected: Option<Coords>,
    legalMoves: seq<string>, isLastMoveSquare: (int, int) -> bool, styleName: string): SquareView
  {
    var code := PieceCode(square);
    SquareView(IsBlack(row, col), IsSelected(selected, row, col), IsLegalMove(legalMoves, row, col),
      isLastMoveSquare(row, col), code, PieceImage(styleName, code))
  }

  /** The board's `map` over its rows and, within each, its squares. */
  function Render(
    board: Grid, selected: Option<Coords>, legalMoves: seq<string>,
    isLastMoveSquare: (int, int) -> bool, styleName: string): (v: seq<seq<SquareView>>)
    ensures |v| == |board| && forall r | 0 <= r < |v| :: |v[r]| == |board[r]|
  {
    seq(|board|, r requires 0 <= r < |board| =>
      seq(|board[r]|, c requires 0 <= c < |board[r]| =>
        RenderSquare(board[r][c], r, c, selected, legalMoves, isLastMoveSquare, styleName)))
  }

  /** Each square of the render is the view of the board's square at the
      same row and column, from its own coordinates. */
  lemma RenderAt(
    board: Grid, selected: Option<Coords>, legalMoves: seq<string>,
    isLastMoveSquare: (int, int) -> bool, styleName: string, r: nat, c: nat)
    requires r < |board| && c < |board[r]|
    ensures Render(board, selected, legalMoves, isLastMoveSquare, styleName)[r][c]
         == RenderSquare(board[r][c], r, c, selected, legalMoves, isLastMoveSquare, styleName)
  {
  }

  /** The rank labels down the side and the file labels along the bottom. */
  const RankLabels: seq<int> := [8, 7, 6, 5, 4, 3, 2, 1]
  const FileLabels: seq<char> := ['a', 'b', 'c', 'd', 'e', 'f', 'g', 'h']

  // ---------------------------------------------------------------------
  // Properties.

  /** The local `toSquare` agrees with the one in utils.ts everywhere. */
  lemma LocalToSquareAgrees(row: int, col: int)
    ensures LocalToSquare(row, col) == ToSquare(row, col)
  {
  }

  /** Square colours follow the naming of the squares: a square is dark
      exactly when its file number (a = 1) and rank number add up to an even
      number, so a1 is dark and h1 light. */
  lemma DarkByName(row: nat, col: nat)
    requires OnBoard(row, col)
    ensures IsBlack(row, col) <==> ((col + 1) + (8 - row)) % 2 == 0
  {
  }

  lemma CornerColours()
    ensures ToSquare(7, 0) == "a1" && IsBlack(7, 0)
    ensures ToSquare(7, 7) == "h1" && !IsBlack(7, 7)
  {
    Corners();
  }

  /** Neighbouring squares differ in colour. */
  lemma Alternating(row: nat, col: nat)
    ensures IsBlack(row, col) != IsBlack(row, col + 1)
    ensures IsBlack(row, col) != IsBlack(row + 1, col)
  {
  }

  /** At most one square is marked selected, and it is the selected one. */
  lemma OneSelected(selected: Option<Coords>, r1: int, c1: int, r2: int, c2: int)
    requires IsSelected(selected, r1, c1) && IsSelected(selected, r2, c2)
    ensures r1 == r2 && c1 == c2 && selected == Some(Coords(r1, c1))
  {
  }

  /** A square is marked legal exactly when it is the square of one of the
      cached destination names. */
  lemma LegalMarks(legalMoves: seq<string>, row: int, col: int)
    requires OnBoard(row, col)
    ensures IsLegalMove(legalMoves, row, col)
        <==> exists i | 0 <= i < |legalMoves| :: IsSquareName(legalMoves[i]) && FromSquare(legalMoves[i]) == Coords(row, col)
  {
    LocalToSquareAgrees(row, col);
    SquareShape(row, col);
    var name := ToSquare(row, col);
    if IsLegalMove(legalMoves, row, col) {
      var i :| 0 <= i < |legalMoves| && legalMoves[i] == name;
      FromToSquare(row, col);
    }
    if exists i | 0 <= i < |legalMoves| :: IsSquareName(legalMoves[i]) && FromSquare(legalMoves[i]) == Coords(row, col) {
      var i :| 0 <= i < |legalMoves| && IsSquareName(legalMoves[i]) && FromSquare(legalMoves[i]) == Coords(row, col);
      ToFromSquare(legalMoves[i]);
    }
  }

  /** The piece code is a colour letter and a type letter, the codes the mono
      table is written for; different pieces have different codes. */
  lemma PieceCodeShape(p: Piece)
    ensures IsPieceCode(PieceCode(Some(p)))
  {
  }

  lemma PieceCodeInjective(p: Piece, q: Piece)
    requires PieceCode(Some(p)) == PieceCode(Some(q))
    ensures p == q
  {
    assert PieceCode(Some(p))[0] == PieceCode(Some(q))[0];
    assert PieceCode(Some(p))[1] == PieceCode(Some(q))[1];
  }

  /** A square shows an image exactly when it holds a piece, and in the mono
      style the image is the piece's type letter, upper case for white. */
  lemma ImageShown(
    square: Option<Piece>, row: nat, col: nat, selected: Option<Coords>,
    legalMoves: seq<string>, isLastMoveSquare: (int, int) -> bool, styleName: string)
    ensures RenderSquare(square, row, col, selected, legalMoves, isLastMoveSquare, styleName).image.Some?
        <==> square.Some?
    ensures square.Some? && styleName == "mono" ==>
      RenderSquare(square, row, col, selected, legalMoves, isLastMoveSquare, styleName).image
        == Some("/pieces/mono/" + [MonoLetter(square.value)] + ".svg")
  {
    if square.Some? && styleName == "mono" {
      var p, code := square.value, PieceCode(square);
      PieceCodeShape(p);
      MonoFilename(code);
      assert code[0] == ColorCode(p.color) && code[1] == KindCode(p.kind);
      assert GetPieceFilename(styleName, code) == [MonoLetter(p)];
      assert "/pieces/" + styleName + "/" == "/pieces/mono/";
    }
  }

  /** What the render shows at a square of the board: dark by the parity of
      its name, selected exactly when it is the selection, marked legal
      exactly when a cached destination name reads back to it, marked as
      last move as the controller says, and an image exactly when it holds
      a piece (in mono, the piece's letter). */
  lemma RenderedSquare(
    board: Grid, selected: Option<Coords>, legalMoves: seq<string>,
    isLastMoveSquare: (int, int) -> bool, styleName: string, r: nat, c: nat)
    requires r < |board| && c < |board[r]| && OnBoard(r, c)
    ensures var v := Render(board, selected, legalMoves, isLastMoveSquare, styleName)[r][c];
      && (v.dark <==> ((c + 1) + (8 - r)) % 2 == 0)
      && (v.selected <==> selected == Some(Coords(r, c)))
      && (v.legal <==> exists i | 0 <= i < |legalMoves| :: IsSquareName(legalMoves[i]) && FromSquare(legalMoves[i]) == Coords(r, c))
      && v.lastMove == isLastMoveSquare(r, c)
      && (v.alt == [] <==> board[r][c].None?)
      && (v.image.Some? <==> board[r][c].Some?)
      && (board[r][c].Some? && styleName == "mono" ==> v.image == Some("/pieces/mono/" + [MonoLetter(board[r][c].value)] + ".svg"))
  {
    RenderAt(board, selected, legalMoves, isLastMoveSquare, styleName, r, c);
    DarkByName(r, c);
    LegalMarks(legalMoves, r, c);
    ImageShown(board[r][c], r, c, selected, legalMoves, isLastMoveSquare, styleName);
  }

  /** The mono image letter of a piece. */
  function MonoLetter(p: Piece): char {
    var t := KindCode(p.kind);
    if p.color == White then (t as int - 32) as char else t
  }

  /** The labels name the squares beside them: row i's rank label is the
      digit its squares end in, column c's file label the letter they start
      with. */
  lemma LabelsMatchSquares(row: nat, col: nat)
    requires OnBoard(row, col)
    ensures RankLabels[row] == 8 - row && ToSquare(row, col)[1] == Digit(RankLabels[row])
    ensures ToSquare(row, col)[0] == FileLabels[col]
  {
    SquareShape(row, col);
  }
}
