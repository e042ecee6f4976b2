/**
  Chess, as in lld/python/chess.py.

  This copy names Rook, Queen and King in its starting layout without defining
  them, builds its pieces without the coordinates their constructor asks for, and
  never implements the abstract `can_move`; so its board cannot be built and only
  its movement rules and its move can be modelled. They are modelled over any
  8 by 8 grid of squares, each empty or holding a pawn, knight or bishop of some
  colour. Rules take the start and end squares; the game checks that the start
  holds one of the mover's pieces and that the end does not, applies the piece's
  rule, and on success moves the piece and hands the turn over.
  The bishop's first test is parenthesised so that it compares the signed column
  change with the size of the row change; the model keeps that, and
  `BishopQuirk` shows its effect.
*/
module ChessRoot {
  import opened Common

  datatype Color = White | Black

  /** The piece classes the file defines. */
  datatype Kind = Pawn | Knight | Bishop

  datatype Piece = Piece(color: Color, kind: Kind)

  type Square = Option<Piece>

  datatype Position = Position(row: int, col: int)

  predicate Grid(grid: seq<seq<Square>>)
  {
    |grid| == 8 && forall r :: 0 <= r < 8 ==> |grid[r]| == 8
  }

  /** What `get_position` lets through. */
  predicate OnBoard(p: Position)
  {
    0 <= p.row < 8 && 0 <= p.col < 8
  }

  function At(grid: seq<seq<Square>>, p: Position): Square
    requires Grid(grid) && OnBoard(p)
  {
    grid[p.row][p.col]
  }

  // ---------------------------------------------------------------- moving rules

  /** `Pawn.is_valid_move`: one step forward onto an empty square, two steps
      forward from row 1 or 6 over an empty square onto an empty one, or one step
      diagonally forward onto an occupied square. */
  predicate PawnAllows(grid: seq<seq<Square>>, color: Color, start: Position, end: Position)
    requires Grid(grid) && OnBoard(start) && OnBoard(end)
  {
    var direction := if color == White then 1 else -1;
    var dx := end.col - start.col;
    var dy := end.row - start.row;
    if dx == 0 then
      if dy == direction then At(grid, end).None?
      else if dy == 2 * direction && (start.row == 1 || start.row == 6) then
        At(grid, end).None? && At(grid, Position(start.row + direction, start.col)).None?
      else false
    else if Abs(dx) == 1 && dy == direction then At(grid, end).Some?
    else false
  }

  /** `Knight.is_valid_move`. */
  predicate KnightAllows(start: Position, end: Position)
  {
    var dx := Abs(end.col - start.col);
    var dy := Abs(end.row - start.row);
    (dx == 2 && dy == 1) || (dx == 1 && dy == 2)
  }

  /** The first test of `Bishop.is_valid_move`, as parenthesised: the column change,
      with its sign, must equal the size of the row change. */
  predicate BishopShape(start: Position, end: Position)
  {
    end.col - start.col == Abs(end.row - start.row)
  }

  /** `_is_clear_path`: every square strictly between start and end, along the
      diagonal, is empty. */
  predicate ClearPath(grid: seq<seq<Square>>, start: Position, end: Position)
    requires Grid(grid) && OnBoard(start) && OnBoard(end) && BishopShape(start, end)
  {
    forall i :: 1 <= i < end.col - start.col ==> grid[PathRow(start, end, i)][start.col + i].None?
  }

  /** The row of the `i`-th square along the diagonal from start towards end. */
  function PathRow(start: Position, end: Position, i: int): int
  {
    if end.row > start.row then start.row + i else start.row - i
  }

  /** `is_valid_move` of the piece's class. */
  predicate Allows(grid: seq<seq<Square>>, piece: Piece, start: Position, end: Position)
    requires Grid(grid) && OnBoard(start) && OnBoard(end)
  {
    match piece.kind
    case Pawn => PawnAllows(grid, piece.color, start, end)
    case Knight => KnightAllows(start, end)
    case Bishop => BishopShape(start, end) && ClearPath(grid, start, end)
  }

  /** `_is_clear_path`, square by square. */
  method IsClearPath(grid: seq<seq<Square>>, start: Position, end: Position) returns (clear: bool)
    requires Grid(grid) && OnBoard(start) && OnBoard(end) && BishopShape(start, end)
    ensures clear == ClearPath(grid, start, end)
  {
    var stepX: int := if end.col > start.col then 1 else -1;
    var stepY: int := if end.row > start.row then 1 else -1;
    var steps: int := Abs(end.col - start.col);
    assert steps == end.col - start.col;
    var i: int := 1;
    while i < steps
      invariant steps == end.col - start.col
      invariant 1 <= i && (i <= steps || i == 1)
      invariant forall k :: 1 <= k < i ==> grid[PathRow(start, end, k)][start.col + k].None?
    {
      var check := Position(start.row + i * stepY, start.col + i * stepX);
      assert check == Position(PathRow(start, end, i), start.col + i);
      if At(grid, check).Some? {
        return false;
      }
      i := i + 1;
    }
    return true;
  }

  /** `is_valid_move` of the piece's class, running the bishop's path check. */
  method PieceAllows(grid: seq<seq<Square>>, piece: Piece, start: Position, end: Position) returns (allowed: bool)
    requires Grid(grid) && OnBoard(start) && OnBoard(end)
    ensures allowed == Allows(grid, piece, start, end)
  {
    match piece.kind {
      case Pawn =>
        allowed := PawnAllows(grid, piece.color, start, end);
      case Knight =>
        allowed := KnightAllows(start, end);
      case Bishop =>
        if !BishopShape(start, end) {
          return false;
        }
        allowed := IsClearPath(grid, start, end);
    }
  }

  /** A pawn only moves towards the far side: one row, or two from row 1 or 6 over
      an empty square; straight on only onto an empty square and one column aside
      only onto an occupied one. */
  lemma PawnRules(grid: seq<seq<Square>>, color: Color, start: Position, end: Position)
    requires Grid(grid) && OnBoard(start) && OnBoard(end)
    ensures
      var forward := if color == White then end.row - start.row else start.row - end.row;
      PawnAllows(grid, color, start, end) <==>
        (forward == 1 && end.col == start.col && At(grid, end).None?)
        || (forward == 2 && end.col == start.col && (start.row == 1 || start.row == 6)
            && At(grid, end).None?
            && At(grid, Position((start.row + end.row) / 2, start.col)).None?)
        || (forward == 1 && Abs(end.col - start.col) == 1 && At(grid, end).Some?)
  {
  }

  /** The knight's moves are exactly the eight L-shaped jumps, and they are
      reversible. */
  lemma KnightRules(start: Position, end: Position)
    ensures KnightAllows(start, end) <==>
      (end.row - start.row, end.col - start.col) in
        {(2, 1), (2, -1), (-2, 1), (-2, -1), (1, 2), (1, -2), (-1, 2), (-1, -2)}
    ensures KnightAllows(start, end) <==> KnightAllows(end, start)
  {
  }

  /** As written, a bishop only ever moves towards higher columns: on an empty
      board it may go from (4, 4) to (3, 5) or (5, 5) but not to (3, 3) or (5, 3),
      and no bishop move is ever reversible. */
  lemma BishopQuirk(grid: seq<seq<Square>>, color: Color, start: Position, end: Position)
    requires Grid(grid) && OnBoard(start) && OnBoard(end)
    ensures Allows(grid, Piece(color, Bishop), start, end) ==> end.col >= start.col
    ensures Allows(grid, Piece(color, Bishop), start, end) && start != end ==>
      !Allows(grid, Piece(color, Bishop), end, start)
    ensures start == Position(4, 4) && (forall r, c :: 0 <= r < 8 && 0 <= c < 8 ==> grid[r][c].None?) ==>
      Allows(grid, Piece(color, Bishop), start, Position(3, 5))
      && Allows(grid, Piece(color, Bishop), start, Position(5, 5))
      && !Allows(grid, Piece(color, Bishop), start, Position(3, 3))
      && !Allows(grid, Piece(color, Bishop), start, Position(5, 3))
  {
  }

  /** A bishop's move is allowed exactly when it has that shape and every square it
      passes over is empty: a piece between start and end blocks it. */
  lemma BishopBlocked(grid: seq<seq<Square>>, color: Color, start: Position, end: Position, i: int)
    requires Grid(grid) && OnBoard(start) && OnBoard(end) && BishopShape(start, end)
    requires 1 <= i < end.col - start.col
    requires grid[PathRow(start, end, i)][start.col + i].Some?
    ensures !Allows(grid, Piece(color, Bishop), start, end)
  {
  }

  // ---------------------------------------------------------------- the board

  /** The grid after `move_piece`: the start's piece written to the end, then the
      start emptied. */
  function MovedGrid(grid: seq<seq<Square>>, start: Position, end: Position): (r: seq<seq<Square>>)
    requires Grid(grid) && OnBoard(start) && OnBoard(end)
    ensures Grid(r)
  {
    var placed := grid[end.row := grid[end.row][end.col := At(grid, start)]];
    placed[start.row := placed[start.row][start.col := None]]
  }

  /** `move_piece` takes whatever is on the end square: the end then holds the
      start's piece, the start is empty, and nothing else changes; moving a square
      onto itself empties it. */
  lemma MoveEffect(grid: seq<seq<Square>>, start: Position, end: Position)
    requires Grid(grid) && OnBoard(start) && OnBoard(end)
    ensures var after := MovedGrid(grid, start, end);
      At(after, start) == None
      && (start != end ==> At(after, end) == At(grid, start))
      && forall r, c :: 0 <= r < 8 && 0 <= c < 8 && Position(r, c) != start && Position(r, c) != end ==>
        after[r][c] == grid[r][c]
  {
  }

  class Board {
    var grid: seq<seq<Square>>

    /** The squares are given: the file's own layout cannot be built. */
    constructor (grid: seq<seq<Square>>)
      requires Grid(grid)
      ensures this.grid == grid
    {
      this.grid := grid;
    }

    function GetPiece(position: Position): Square
      reads this
      requires Grid(grid) && OnBoard(position)
    {
      At(grid, position)
    }

    method MovePiece(start: Position, end: Position)
      requires Grid(grid) && OnBoard(start) && OnBoard(end)
      modifies this
      ensures grid == MovedGrid(old(grid), start, end)
    {
      var piece := grid[start.row][start.col];
      grid := grid[end.row := grid[end.row][end.col := piece]];
      grid := grid[start.row := grid[start.row][start.col := None]];
    }
  }

  // ---------------------------------------------------------------- the game

  /** `ChessGame.is_valid_move`: the start holds one of the mover's pieces, the end
      does not, and the piece's rule allows the move. */
  predicate ValidMove(grid: seq<seq<Square>>, player: Color, start: Position, end: Position)
    requires Grid(grid) && OnBoard(start) && OnBoard(end)
  {
    At(grid, start).Some? && At(grid, start).value.color == player
    && !(At(grid, end).Some? && At(grid, end).value.color == player)
    && Allows(grid, At(grid, start).value, start, end)
  }

  function Opponent(c: Color): Color
  {
    if c == White then Black else White
  }

  /** One round of `play`, given the two positions read: the grid after it and the
      player to move next. */
  function Round(grid: seq<seq<Square>>, player: Color, start: Position, end: Position): (seq<seq<Square>>, Color)
    requires Grid(grid) && OnBoard(start) && OnBoard(end)
  {
    if ValidMove(grid, player, start, end) then (MovedGrid(grid, start, end), Opponent(player))
    else (grid, player)
  }

  /** The turn passes exactly when the move is valid, and an invalid move changes
      nothing; a valid move never lands on the mover's own piece nor stays in
      place, and moves one of the mover's pieces to the end square. */
  lemma RoundSpec(grid: seq<seq<Square>>, player: Color, start: Position, end: Position)
    requires Grid(grid) && OnBoard(start) && OnBoard(end)
    ensures var (after, next) := Round(grid, player, start, end);
      (next != player <==> ValidMove(grid, player, start, end))
      && (next == player ==> after == grid)
      && (next != player ==>
        start != end && At(grid, start).value.color == player
        && At(after, end) == At(grid, start) && At(after, start) == None)
  {
    if ValidMove(grid, player, start, end) {
      MoveEffect(grid, start, end);
    }
  }

  class ChessGame {
    const board: Board
    var currentPlayer: Color

    constructor (board: Board)
      ensures this.board == board && currentPlayer == White
    {
      this.board := board;
      currentPlayer := White;
    }

    method IsValidMove(start: Position, end: Position) returns (valid: bool)
      requires Grid(board.grid) && OnBoard(start) && OnBoard(end)
      ensures valid == ValidMove(board.grid, currentPlayer, start, end)
    {
      var piece := board.GetPiece(start);
      var target := board.GetPiece(end);
      if piece.None? || piece.value.color != currentPlayer {
        return false;
      }
      if target.Some? && target.value.color == currentPlayer {
        return false;
      }
      valid := PieceAllows(board.grid, piece.value, start, end);
    }

    /** The body of `play`'s loop for two positions read: a valid move is made and
        the turn passes; an invalid one changes nothing. */
    method PlayRound(start: Position, end: Position) returns (valid: bool)
      requires Grid(board.grid) && OnBoard(start) && OnBoard(end)
      modifies this, board
      ensures Grid(board.grid)
      ensures (board.grid, currentPlayer) == Round(old(board.grid), old(currentPlayer), start, end)
      ensures valid == ValidMove(old(board.grid), old(currentPlayer), start, end)
    {
      valid := IsValidMove(start, end);
      if valid {
        board.MovePiece(start, end);
        currentPlayer := if currentPlayer == White then Black else White;
      }
    }
  }
}
