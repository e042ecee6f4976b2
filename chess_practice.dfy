/**
  Chess, as in lld/python/practice/chess.py.

  An 8 by 8 board of squares, each empty or holding a piece that knows its colour,
  its kind and its own row and column. Each kind has a movement rule that looks
  only at the shape of the move (no path is checked for blocking pieces); a move is
  valid when the destination is on the board, does not hold a piece of the mover's
  colour, and fits the rule. A valid move empties the source square and puts the
  piece, with its new coordinates, on the destination; the game then hands the
  turn to the other player.
  Pieces are values here: a piece on the board is identified by its square, and
  the model keeps every piece's own row and column equal to its square, as the
  source does.
*/
module ChessPractice {
  import opened Common

  datatype Color = White | Black

  datatype Kind = Pawn | Rook | Knight | Bishop | Queen | King

  datatype Piece = Piece(color: Color, kind: Kind, row: int, col: int)

  type Square = Option<Piece>

  datatype ChessError =
    | IndexError       // a selected square outside Python's list indices
    | InvalidSelection // "Invalid piece selection"
    | InvalidMove      // "Invalid move!"

  /** Eight rows of eight squares. */
  predicate Grid(squares: seq<seq<Square>>)
  {
    |squares| == 8 && forall r :: 0 <= r < 8 ==> |squares[r]| == 8
  }

  predicate OnBoard(row: int, col: int)
  {
    0 <= row < 8 && 0 <= col < 8
  }

  /** Every piece's own coordinates are those of the square holding it. */
  predicate Placed(squares: seq<seq<Square>>)
    requires Grid(squares)
  {
    forall r, c :: 0 <= r < 8 && 0 <= c < 8 && squares[r][c].Some? ==>
      squares[r][c].value.row == r && squares[r][c].value.col == c
  }

  // ---------------------------------------------------------------- moving rules

  /** `can_move` of each piece class, for a destination on the board. */
  predicate CanMove(squares: seq<seq<Square>>, p: Piece, destRow: int, destCol: int)
    requires Grid(squares) && OnBoard(destRow, destCol)
  {
    var rowDiff := destRow - p.row;
    var colDiff := Abs(destCol - p.col);
    match p.kind
    case Pawn =>
      if p.color == White then
        (rowDiff == 1 && colDiff == 0)
        || (p.row == 1 && rowDiff == 2 && colDiff == 0)
        || (rowDiff == 1 && colDiff == 1 && squares[destRow][destCol].Some?)
      else
        (rowDiff == -1 && colDiff == 0)
        || (p.row == 6 && rowDiff == -2 && colDiff == 0)
        || (rowDiff == -1 && colDiff == 1 && squares[destRow][destCol].Some?)
    case Rook => p.row == destRow || p.col == destCol
    case Knight => (Abs(rowDiff) == 2 && colDiff == 1) || (Abs(rowDiff) == 1 && colDiff == 2)
    case Bishop => Abs(rowDiff) == colDiff
    case Queen => (p.row == destRow || p.col == destCol) || Abs(rowDiff) == colDiff
    case King => Abs(rowDiff) <= 1 && colDiff <= 1
  }

  /** `Board.is_valid_move`. */
  predicate IsValidMove(squares: seq<seq<Square>>, p: Piece, destRow: int, destCol: int)
    requires Grid(squares)
  {
    OnBoard(destRow, destCol)
    && (squares[destRow][destCol].None? || squares[destRow][destCol].value.color != p.color)
    && CanMove(squares, p, destRow, destCol)
  }

  /** A valid move never ends on a square holding a piece of the mover's colour, so
      in particular a placed piece never moves onto its own square. */
  lemma NoSelfCapture(squares: seq<seq<Square>>, p: Piece, destRow: int, destCol: int)
    requires Grid(squares) && IsValidMove(squares, p, destRow, destCol)
    ensures squares[destRow][destCol].Some? ==> squares[destRow][destCol].value.color != p.color
    ensures OnBoard(p.row, p.col) && squares[p.row][p.col] == Some(p) ==>
      (destRow, destCol) != (p.row, p.col)
  {
  }

  /** The queen moves exactly where a rook or a bishop of the same colour on the
      same square could. */
  lemma QueenIsRookOrBishop(squares: seq<seq<Square>>, p: Piece, destRow: int, destCol: int)
    requires Grid(squares) && OnBoard(destRow, destCol) && p.kind == Queen
    ensures CanMove(squares, p, destRow, destCol) <==>
      CanMove(squares, p.(kind := Rook), destRow, destCol) || CanMove(squares, p.(kind := Bishop), destRow, destCol)
  {
  }

  /** Every kind but the pawn moves symmetrically: it can go from a to b exactly when
      it can come back from b to a. */
  lemma Symmetric(squares: seq<seq<Square>>, p: Piece, destRow: int, destCol: int)
    requires Grid(squares) && OnBoard(destRow, destCol) && OnBoard(p.row, p.col) && p.kind != Pawn
    ensures CanMove(squares, p, destRow, destCol) <==>
      CanMove(squares, p.(row := destRow, col := destCol), p.row, p.col)
  {
  }

  /** Pawns only go forward, one row or two from their starting row, and go
      sideways only by one column onto an occupied square; a straight move does not
      need an empty square. */
  lemma PawnForward(squares: seq<seq<Square>>, p: Piece, destRow: int, destCol: int)
    requires Grid(squares) && OnBoard(destRow, destCol) && p.kind == Pawn
    ensures
      var forward := if p.color == White then destRow - p.row else p.row - destRow;
      var start := if p.color == White then 1 else 6;
      CanMove(squares, p, destRow, destCol) <==>
        (forward == 1 && destCol == p.col)
        || (forward == 2 && destCol == p.col && p.row == start)
        || (forward == 1 && Abs(destCol - p.col) == 1 && squares[destRow][destCol].Some?)
  {
  }

  // ---------------------------------------------------------------- the board

  /** The back rank, from column 0 to column 7. */
  function BackRank(col: int): Kind
  {
    if col == 0 || col == 7 then Rook
    else if col == 1 || col == 6 then Knight
    else if col == 2 || col == 5 then Bishop
    else if col == 3 then Queen
    else King
  }

  /** The squares after `_initialize_board`. */
  function InitialSquares(): (squares: seq<seq<Square>>)
    ensures Grid(squares)
  {
    seq(8, r =>
      seq(8, c =>
        if r == 0 then Some(Piece(White, BackRank(c), r, c))
        else if r == 1 then Some(Piece(White, Pawn, r, c))
        else if r == 6 then Some(Piece(Black, Pawn, r, c))
        else if r == 7 then Some(Piece(Black, BackRank(c), r, c))
        else None))
  }

  /** The starting position: white on rows 0 and 1, black on rows 6 and 7, the rows
      between empty, pawns in front, the back ranks rook, knight, bishop, queen,
      king, bishop, knight, rook, and every piece placed on its own square. */
  lemma InitialLayout()
    ensures Placed(InitialSquares())
    ensures forall r, c :: OnBoard(r, c) ==>
      var sq := InitialSquares()[r][c];
      (2 <= r <= 5 <==> sq.None?)
      && (r <= 1 ==> sq.Some? && sq.value.color == White)
      && (r >= 6 ==> sq.Some? && sq.value.color == Black)
      && (r == 1 || r == 6 ==> sq.Some? && sq.value.kind == Pawn)
      && (r == 0 || r == 7 ==> sq.Some? && sq.value.kind == [Rook, Knight, Bishop, Queen, King, Bishop, Knight, Rook][c])
  {
    var order := [Rook, Knight, Bishop, Queen, King, Bishop, Knight, Rook];
    forall c | 0 <= c < 8
      ensures BackRank(c) == order[c]
    {
      if c == 0 {} else if c == 1 {} else if c == 2 {} else if c == 3 {}
      else if c == 4 {} else if c == 5 {} else if c == 6 {} else {}
    }
  }

  /** `set_piece`: one square overwritten. */
  function SetSquare(squares: seq<seq<Square>>, row: int, col: int, sq: Square): (r: seq<seq<Square>>)
    requires Grid(squares) && OnBoard(row, col)
    ensures Grid(r)
    ensures forall i, j :: OnBoard(i, j) ==> r[i][j] == if (i, j) == (row, col) then sq else squares[i][j]
  {
    squares[row := squares[row][col := sq]]
  }

  /** The squares after `make_move` carries out a move: the source square emptied,
      then the piece, at its new coordinates, written over the destination. */
  function Moved(squares: seq<seq<Square>>, p: Piece, destRow: int, destCol: int): seq<seq<Square>>
    requires Grid(squares) && OnBoard(p.row, p.col) && OnBoard(destRow, destCol)
  {
    SetSquare(SetSquare(squares, p.row, p.col, None), destRow, destCol, Some(p.(row := destRow, col := destCol)))
  }

  /** After a valid move the destination holds the piece, now at the destination,
      whatever was there before; the source is empty; no other square changes; and
      pieces still sit on their own squares. */
  lemma MoveEffect(squares: seq<seq<Square>>, p: Piece, destRow: int, destCol: int)
    requires Grid(squares) && Placed(squares) && OnBoard(p.row, p.col) && squares[p.row][p.col] == Some(p)
    requires IsValidMove(squares, p, destRow, destCol)
    ensures var after := Moved(squares, p, destRow, destCol);
      Grid(after) && Placed(after)
      && after[destRow][destCol] == Some(Piece(p.color, p.kind, destRow, destCol))
      && after[p.row][p.col] == None
      && forall r, c :: OnBoard(r, c) && (r, c) != (p.row, p.col) && (r, c) != (destRow, destCol) ==>
        after[r][c] == squares[r][c]
  {
    NoSelfCapture(squares, p, destRow, destCol);
  }

  class Board {
    var squares: seq<seq<Square>>

    predicate Valid()
      reads this
    {
      Grid(squares) && Placed(squares)
    }

    constructor ()
      ensures squares == InitialSquares() && Valid()
    {
      squares := InitialSquares();
      InitialLayout();
    }

    function GetPiece(row: int, col: int): Square
      reads this
      requires Grid(squares) && OnBoard(row, col)
    {
      squares[row][col]
    }

    method SetPiece(row: int, col: int, sq: Square)
      requires Grid(squares) && OnBoard(row, col)
      modifies this
      ensures squares == SetSquare(old(squares), row, col, sq)
    {
      squares := squares[row := squares[row][col := sq]];
    }

    /** `is_checkmate` and `is_stalemate` are both placeholders. */
    predicate IsCheckmate(color: Color)
    {
      false
    }

    predicate IsStalemate(color: Color)
    {
      false
    }
  }

  /** `Player.make_move` for a piece taken from the board: a valid move is carried
      out; an invalid one raises and leaves the board alone. */
  method MakeMove(board: Board, piece: Piece, destRow: int, destCol: int) returns (outcome: Outcome<ChessError>)
    requires Grid(board.squares) && OnBoard(piece.row, piece.col)
    modifies board
    ensures IsValidMove(old(board.squares), piece, destRow, destCol) ==>
      outcome == Pass && board.squares == Moved(old(board.squares), piece, destRow, destCol)
    ensures !IsValidMove(old(board.squares), piece, destRow, destCol) ==>
      outcome == Fail(InvalidMove) && board.squares == old(board.squares)
  {
    if IsValidMove(board.squares, piece, destRow, destCol) {
      board.SetPiece(piece.row, piece.col, None);
      board.SetPiece(destRow, destCol, Some(piece.(row := destRow, col := destCol)));
      return Pass;
    }
    return Fail(InvalidMove);
  }

  // ---------------------------------------------------------------- the game

  /** Python's list indexing for `n` elements: negative indices count from the end,
      anything else outside the list raises. */
  function PyIndex(i: int, n: nat): (r: Option<int>)
    ensures r.Some? ==> 0 <= r.value < n && (r.value == i || r.value == i + n)
    ensures r.None? <==> i < -(n as int) || i >= n
  {
    if 0 <= i < n then Some(i) else if -(n as int) <= i < 0 then Some(i + n) else None
  }

  /** The colour of players[index]. */
  function PlayerColor(index: int): Color
  {
    if index == 0 then White else Black
  }

  /** One round of `Game.start`'s loop, given the four numbers read: the squares
      after it, the index of the player to move next, and what it raised. */
  function Round(squares: seq<seq<Square>>, current: int, srcRow: int, srcCol: int, destRow: int, destCol: int)
    : (seq<seq<Square>>, int, Outcome<ChessError>)
    requires Grid(squares) && Placed(squares)
  {
    var row := PyIndex(srcRow, 8);
    var col := PyIndex(srcCol, 8);
    if row.None? || col.None? then (squares, current, Fail(IndexError))
    else
      var sq := squares[row.value][col.value];
      if sq.None? || sq.value.color != PlayerColor(current) then (squares, current, Fail(InvalidSelection))
      else if !IsValidMove(squares, sq.value, destRow, destCol) then (squares, current, Fail(InvalidMove))
      else (Moved(squares, sq.value, destRow, destCol), 1 - current, Pass)
  }

  /** A round hands the turn over exactly when it does not raise, a round that
      raises changes nothing, and a successful round moves one of the mover's own
      pieces and keeps every piece on its own square. */
  lemma RoundSpec(squares: seq<seq<Square>>, current: int, srcRow: int, srcCol: int, destRow: int, destCol: int)
    requires Grid(squares) && Placed(squares) && (current == 0 || current == 1)
    ensures var (after, next, outcome) := Round(squares, current, srcRow, srcCol, destRow, destCol);
      (next == 0 || next == 1) && Grid(after) && Placed(after)
      && (outcome.Pass? <==> next != current)
      && (outcome.Fail? ==> after == squares)
      && (outcome.Pass? ==>
        exists r, c :: OnBoard(r, c) && squares[r][c].Some? && squares[r][c].value.color == PlayerColor(current)
          && after[r][c] == None && after[destRow][destCol] == Some(squares[r][c].value.(row := destRow, col := destCol)))
  {
    var (after, next, outcome) := Round(squares, current, srcRow, srcCol, destRow, destCol);
    if outcome.Pass? {
      var r, c := PyIndex(srcRow, 8).value, PyIndex(srcCol, 8).value;
      var p := squares[r][c].value;
      MoveEffect(squares, p, destRow, destCol);
      assert after[r][c] == None;
    }
  }

  /** The placeholders never end the game, so `start` loops for ever. */
  lemma NeverOver(board: Board)
    ensures !board.IsCheckmate(White) && !board.IsCheckmate(Black)
    ensures !board.IsStalemate(White) && !board.IsStalemate(Black)
  {
  }

  class Game {
    const board: Board
    /** The index of the player to move: 0 for white, 1 for black. */
    var currentPlayer: int

    predicate Valid()
      reads this, board
    {
      board.Valid() && (currentPlayer == 0 || currentPlayer == 1)
    }

    constructor ()
      ensures fresh(board) && board.squares == InitialSquares() && currentPlayer == 0 && Valid()
    {
      board := new Board();
      currentPlayer := 0;
    }

    /** The body of `start`'s loop for the four numbers read: the piece is selected,
        moved, and the turn handed over; whatever that raises is caught and the
        same player moves again. */
    method PlayRound(srcRow: int, srcCol: int, destRow: int, destCol: int) returns (outcome: Outcome<ChessError>)
      requires Valid()
      modifies this, board
      ensures Valid()
      ensures (board.squares, currentPlayer, outcome)
        == Round(old(board.squares), old(currentPlayer), srcRow, srcCol, destRow, destCol)
    {
      RoundSpec(board.squares, currentPlayer, srcRow, srcCol, destRow, destCol);
      var row := PyIndex(srcRow, 8);
      var col := PyIndex(srcCol, 8);
      if row.None? || col.None? {
        return Fail(IndexError);
      }
      var sq := board.GetPiece(row.value, col.value);
      if sq.None? || sq.value.color != PlayerColor(currentPlayer) {
        return Fail(InvalidSelection);
      }
      outcome := MakeMove(board, sq.value, destRow, destCol);
      if outcome.Pass? {
        currentPlayer := 1 - currentPlayer;
      }
    }
  }
}
