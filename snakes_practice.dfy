/**
  Snakes and ladders, as in lld/python/practice/snakes-and-ladders.py.

  The board is a fixed list of snakes and a fixed list of ladders on cells 1..100.
  Players start off the board at 0 and take turns in order; the dice roll of each
  turn is an input (a sequence of rolls, each in 1..6) instead of a random draw.
  The source loops until somebody wins; here play also stops when the given rolls
  run out. The singleton game manager, its lock and its threads are not modelled.
*/
module SnakesPractice {
  import opened Common

  /** The last cell; reaching it exactly wins. */
  const BoardSize := 100
  const MinRoll := 1
  const MaxRoll := 6

  /** A snake or a ladder: a player landing on `start` is moved to `end`. */
  datatype Jump = Jump(start: int, end: int)

  datatype Board = Board(snakes: seq<Jump>, ladders: seq<Jump>)

  /** The exception `play` raises on a game without players: `self.players[0]`. */
  datatype GameError = IndexError

  /** The board every game is played on. */
  const StandardBoard := Board(
    [Jump(16, 6), Jump(48, 26), Jump(64, 60), Jump(93, 73)],
    [Jump(1, 38), Jump(4, 14), Jump(9, 31), Jump(21, 42), Jump(28, 84), Jump(51, 67), Jump(80, 99)])

  predicate OnBoard(cell: int)
  {
    1 <= cell <= BoardSize
  }

  /** Snakes lead down, ladders lead up, every end lies on the board, and no cell
      starts both a snake and a ladder. */
  predicate WellFormed(board: Board)
  {
    (forall k :: 0 <= k < |board.snakes| ==>
      OnBoard(board.snakes[k].start) && OnBoard(board.snakes[k].end)
      && board.snakes[k].end < board.snakes[k].start)
    && (forall k :: 0 <= k < |board.ladders| ==>
      OnBoard(board.ladders[k].start) && OnBoard(board.ladders[k].end)
      && board.ladders[k].end > board.ladders[k].start)
    && (forall k, m :: 0 <= k < |board.snakes| && 0 <= m < |board.ladders| ==>
      board.snakes[k].start != board.ladders[m].start)
  }

  lemma StandardBoardWellFormed()
    ensures WellFormed(StandardBoard)
    ensures |StandardBoard.snakes| == 4 && |StandardBoard.ladders| == 7
  {
  }

  /** The index of the first jump in the list that starts at `cell`. */
  function FirstFrom(jumps: seq<Jump>, cell: int): (r: Option<nat>)
    ensures r.Some? ==> r.value < |jumps| && jumps[r.value].start == cell
    ensures r.Some? ==> forall k :: 0 <= k < r.value ==> jumps[k].start != cell
    ensures r.None? <==> forall k :: 0 <= k < |jumps| ==> jumps[k].start != cell
  {
    if jumps == [] then None
    else if jumps[0].start == cell then Some(0)
    else match FirstFrom(jumps[1..], cell)
      case None => None
      case Some(i) => Some(i + 1)
  }

  /** Where a player landing on `cell` ends up: the end of the first snake starting
      there, else of the first ladder starting there, else the cell itself. */
  function Destination(board: Board, cell: int): int
  {
    match FirstFrom(board.snakes, cell)
    case Some(i) => board.snakes[i].end
    case None =>
      match FirstFrom(board.ladders, cell)
      case Some(j) => board.ladders[j].end
      case None => cell
  }

  predicate IsSnakeStart(board: Board, cell: int)
  {
    exists k :: 0 <= k < |board.snakes| && board.snakes[k].start == cell
  }

  predicate IsLadderStart(board: Board, cell: int)
  {
    exists k :: 0 <= k < |board.ladders| && board.ladders[k].start == cell
  }

  /** On a well-formed board a player goes down exactly on a snake's start, up exactly
      on a ladder's start, and stays otherwise; a cell on the board leads to a cell on
      the board. Snakes are looked at first, so a snake start always leads down. */
  lemma DestinationMoves(board: Board, cell: int)
    requires WellFormed(board)
    ensures Destination(board, cell) < cell <==> IsSnakeStart(board, cell)
    ensures Destination(board, cell) > cell <==> IsLadderStart(board, cell)
    ensures !IsSnakeStart(board, cell) && !IsLadderStart(board, cell) ==> Destination(board, cell) == cell
    ensures IsSnakeStart(board, cell) ==>
      (exists k :: 0 <= k < |board.snakes|
        && board.snakes[k].start == cell && Destination(board, cell) == board.snakes[k].end)
    ensures IsLadderStart(board, cell) ==>
      (exists k :: 0 <= k < |board.ladders|
        && board.ladders[k].start == cell && Destination(board, cell) == board.ladders[k].end)
    ensures OnBoard(cell) ==> OnBoard(Destination(board, cell))
  {
    var s := FirstFrom(board.snakes, cell);
    var l := FirstFrom(board.ladders, cell);
    if s.Some? {
      assert board.snakes[s.value].start == cell;
    } else if l.Some? {
      assert board.ladders[l.value].start == cell;
    }
  }

  /** The lookup as the source writes it: a scan of the snakes, then of the ladders. */
  method GetNewPosition(board: Board, position: int) returns (r: int)
    ensures r == Destination(board, position)
  {
    for i := 0 to |board.snakes|
      invariant forall k :: 0 <= k < i ==> board.snakes[k].start != position
    {
      if board.snakes[i].start == position {
        return board.snakes[i].end;
      }
    }
    for i := 0 to |board.ladders|
      invariant forall k :: 0 <= k < i ==> board.ladders[k].start != position
    {
      if board.ladders[i].start == position {
        return board.ladders[i].end;
      }
    }
    return position;
  }

  /** The cell after rolling `roll` from `position`: a roll past the last cell leaves
      the player where they are; otherwise the player lands and follows any jump. */
  function Advance(board: Board, position: int, roll: int): int
  {
    if position + roll <= BoardSize then Destination(board, position + roll) else position
  }

  /** The move of the source's loop body: the sum of position and roll, followed
      through any snake or ladder, unless it is past the last cell. */
  method NextPosition(board: Board, position: int, roll: int) returns (r: int)
    ensures r == Advance(board, position, roll)
  {
    r := position + roll;
    if r <= BoardSize {
      r := GetNewPosition(board, r);
    } else {
      r := position;
    }
  }

  /** A roll never takes a player off the board, and overshooting keeps the position. */
  lemma AdvanceStaysOnBoard(board: Board, position: int, roll: int)
    requires WellFormed(board)
    requires 0 <= position <= BoardSize && MinRoll <= roll <= MaxRoll
    ensures 0 <= Advance(board, position, roll) <= BoardSize
    ensures position + roll > BoardSize ==> Advance(board, position, roll) == position
    ensures position + roll <= BoardSize ==> OnBoard(Advance(board, position, roll))
  {
    DestinationMoves(board, position + roll);
  }

  /** The players' positions, in turn order, and whose turn it is. */
  datatype State = State(positions: seq<int>, current: nat)

  /** `_is_game_over`: some player stands on the last cell. */
  predicate GameOver(positions: seq<int>)
  {
    BoardSize in positions
  }

  predicate AllOnBoard(positions: seq<int>)
  {
    forall i :: 0 <= i < |positions| ==> 0 <= positions[i] <= BoardSize
  }

  /** One pass of the source's loop body: the current player moves, then either wins
      (and keeps the turn) or hands the turn to the next player. */
  function Turn(board: Board, s: State, roll: int): (t: State)
    requires s.current < |s.positions|
    ensures |t.positions| == |s.positions| && t.current < |t.positions|
  {
    var p := Advance(board, s.positions[s.current], roll);
    var ps := s.positions[s.current := p];
    if p == BoardSize then State(ps, s.current) else State(ps, (s.current + 1) % |ps|)
  }

  /** Only the current player moves; reaching the last cell keeps the turn with the
      winner, anything else passes it round-robin; positions stay on the board. */
  lemma TurnSpec(board: Board, s: State, roll: int)
    requires WellFormed(board) && AllOnBoard(s.positions)
    requires s.current < |s.positions| && MinRoll <= roll <= MaxRoll
    ensures AllOnBoard(Turn(board, s, roll).positions)
    ensures forall i :: 0 <= i < |s.positions| && i != s.current ==>
      Turn(board, s, roll).positions[i] == s.positions[i]
    ensures Turn(board, s, roll).positions[s.current] == Advance(board, s.positions[s.current], roll)
    ensures GameOver(Turn(board, s, roll).positions) && !GameOver(s.positions) ==>
      Turn(board, s, roll).current == s.current
    ensures Turn(board, s, roll).positions[s.current] != BoardSize ==>
      Turn(board, s, roll).current == (s.current + 1) % |s.positions|
  {
    AdvanceStaysOnBoard(board, s.positions[s.current], roll);
    var t := Turn(board, s, roll);
    if GameOver(t.positions) && !GameOver(s.positions) {
      var w :| 0 <= w < |t.positions| && t.positions[w] == BoardSize;
      assert w == s.current;
    }
  }

  /** A turn taken while nobody has won ends the game exactly when the player moving
      reaches the last cell. */
  lemma TurnEndsGame(board: Board, s: State, roll: int)
    requires s.current < |s.positions| && !GameOver(s.positions)
    ensures GameOver(Turn(board, s, roll).positions)
      <==> Turn(board, s, roll).positions[s.current] == BoardSize
  {
    var t := Turn(board, s, roll);
    if t.positions[s.current] != BoardSize {
      forall i | 0 <= i < |t.positions|
        ensures t.positions[i] != BoardSize
      {
        if i != s.current {
          assert s.positions[i] in s.positions;
        }
      }
    }
  }

  predicate ValidRolls(rolls: seq<int>)
  {
    forall k :: 0 <= k < |rolls| ==> MinRoll <= rolls[k] <= MaxRoll
  }

  /** The source's `play` loop over the given rolls: turns are taken until a player
      stands on the last cell or the rolls run out. Returns the final state and the
      number of rolls used. */
  function Run(board: Board, s: State, rolls: seq<int>): (State, nat)
    requires s.current < |s.positions|
    decreases |rolls|
  {
    if GameOver(s.positions) || rolls == [] then (s, 0)
    else
      var r := Run(board, Turn(board, s, rolls[0]), rolls[1..]);
      (r.0, r.1 + 1)
  }

  lemma RunKeepsShape(board: Board, s: State, rolls: seq<int>)
    requires s.current < |s.positions|
    ensures |Run(board, s, rolls).0.positions| == |s.positions|
    ensures Run(board, s, rolls).0.current < |s.positions|
    decreases |rolls|
  {
    if !(GameOver(s.positions) || rolls == []) {
      RunKeepsShape(board, Turn(board, s, rolls[0]), rolls[1..]);
    }
  }

  /** Every position stays in 0..100 through a whole game. */
  lemma {:induction false} RunKeepsOnBoard(board: Board, s: State, rolls: seq<int>)
    requires WellFormed(board) && ValidRolls(rolls)
    requires s.current < |s.positions| && AllOnBoard(s.positions)
    ensures AllOnBoard(Run(board, s, rolls).0.positions)
    decreases |rolls|
  {
    if !(GameOver(s.positions) || rolls == []) {
      TurnSpec(board, s, rolls[0]);
      RunKeepsOnBoard(board, Turn(board, s, rolls[0]), rolls[1..]);
    }
  }

  /** Play ends because someone won or because the rolls ran out. A game won during
      play is won by the player whose turn it is at the end, and by no one else. */
  lemma {:induction false} RunStops(board: Board, s: State, rolls: seq<int>)
    requires WellFormed(board) && ValidRolls(rolls)
    requires s.current < |s.positions| && AllOnBoard(s.positions)
    ensures Run(board, s, rolls).1 <= |rolls|
    ensures Run(board, s, rolls).1 == |rolls| || GameOver(Run(board, s, rolls).0.positions)
    ensures !GameOver(s.positions) && GameOver(Run(board, s, rolls).0.positions) ==>
      var f := Run(board, s, rolls).0;
      f.current < |f.positions| && f.positions[f.current] == BoardSize
      && forall i :: 0 <= i < |f.positions| && i != f.current ==> f.positions[i] != BoardSize
    decreases |rolls|
  {
    if !(GameOver(s.positions) || rolls == []) {
      var t := Turn(board, s, rolls[0]);
      TurnSpec(board, s, rolls[0]);
      RunStops(board, t, rolls[1..]);
      if GameOver(t.positions) {
        assert Run(board, t, rolls[1..]).0 == t;
        assert t.positions[s.current] == BoardSize by {
          var w :| 0 <= w < |t.positions| && t.positions[w] == BoardSize;
        }
      }
    }
  }

  /** While nobody has won, turns go round-robin: after k turns it is the turn of
      the player k places after the first one. */
  lemma {:induction false} RunRoundRobin(board: Board, s: State, rolls: seq<int>)
    requires s.current < |s.positions|
    ensures !GameOver(Run(board, s, rolls).0.positions) ==>
      Run(board, s, rolls).0.current == (s.current + Run(board, s, rolls).1) % |s.positions|
    decreases |rolls|
  {
    var n := |s.positions|;
    if GameOver(s.positions) || rolls == [] {
      ModUnique(s.current, n, 0, s.current);
    } else {
      var t := Turn(board, s, rolls[0]);
      var r := Run(board, t, rolls[1..]);
      assert Run(board, s, rolls) == (r.0, r.1 + 1);
      if GameOver(t.positions) {
        assert r == (t, 0);
      } else {
        RunRoundRobin(board, t, rolls[1..]);
        assert t.positions[s.current] != BoardSize by {
          assert t.positions[s.current] in t.positions;
        }
        assert t.current == (s.current + 1) % n;
        ModAdd(s.current + 1, r.1, n);
      }
    }
  }

  /** Play from `start` over `rolls` has reached `cur` after `used` rolls: what is
      left of the game is play from `cur` over the remaining rolls. */
  ghost predicate Resumes(board: Board, start: State, rolls: seq<int>, cur: State, used: nat)
  {
    used <= |rolls| && start.current < |start.positions| && cur.current < |cur.positions|
    && Run(board, start, rolls).0 == Run(board, cur, rolls[used..]).0
    && Run(board, start, rolls).1 == Run(board, cur, rolls[used..]).1 + used
  }

  lemma ResumeStart(board: Board, start: State, rolls: seq<int>)
    requires start.current < |start.positions|
    ensures Resumes(board, start, rolls, start, 0)
  {
    assert rolls[0..] == rolls;
  }

  lemma ResumeStep(board: Board, start: State, rolls: seq<int>, cur: State, used: nat)
    requires Resumes(board, start, rolls, cur, used)
    requires used < |rolls| && !GameOver(cur.positions)
    ensures Resumes(board, start, rolls, Turn(board, cur, rolls[used]), used + 1)
  {
    assert rolls[used..][1..] == rolls[used + 1..];
  }

  lemma ResumeEnd(board: Board, start: State, rolls: seq<int>, cur: State, used: nat)
    requires Resumes(board, start, rolls, cur, used)
    requires GameOver(cur.positions) || used == |rolls|
    ensures Run(board, start, rolls) == (cur, used)
  {
    if !GameOver(cur.positions) {
      assert rolls[used..] == [];
    }
  }

  class Player {
    const name: string
    var position: int

    /** A new player stands off the board, at 0. */
    constructor (name: string)
      ensures this.name == name && position == 0
    {
      this.name := name;
      position := 0;
    }
  }

  class Game {
    const board: Board
    const players: seq<Player>
    var currentPlayerIndex: nat

    function Positions(): (ps: seq<int>)
      reads players
      ensures |ps| == |players|
      ensures forall i :: 0 <= i < |players| ==> ps[i] == players[i].position
    {
      seq(|players|, i reads players requires 0 <= i < |players| => players[i].position)
    }

    ghost predicate Valid()
      reads this, players
    {
      board == StandardBoard
      && (forall i, j :: 0 <= i < j < |players| ==> players[i] != players[j])
      && AllOnBoard(Positions())
      && (currentPlayerIndex < |players| || (players == [] && currentPlayerIndex == 0))
    }

    /** A game on the standard board with one player per name, everyone at 0,
        the first player to move. */
    constructor (playerNames: seq<string>)
      ensures Valid() && board == StandardBoard
      ensures |players| == |playerNames| && currentPlayerIndex == 0
      ensures forall i :: 0 <= i < |players| ==>
        fresh(players[i]) && players[i].name == playerNames[i] && players[i].position == 0
    {
      board := StandardBoard;
      var ps: seq<Player> := [];
      for i := 0 to |playerNames|
        invariant |ps| == i
        invariant forall j :: 0 <= j < i ==>
          fresh(ps[j]) && ps[j].name == playerNames[j] && ps[j].position == 0
        invariant forall j, k :: 0 <= j < k < i ==> ps[j] != ps[k]
      {
        var p := new Player(playerNames[i]);
        ps := ps + [p];
      }
      players := ps;
      currentPlayerIndex := 0;
      StandardBoardWellFormed();
    }

    /** `_is_game_over`: a scan for a player on the last cell. */
    method IsGameOver() returns (over: bool)
      ensures over <==> GameOver(Positions())
    {
      for i := 0 to |players|
        invariant forall k :: 0 <= k < i ==> players[k].position != BoardSize
      {
        if players[i].position == BoardSize {
          assert Positions()[i] == BoardSize;
          return true;
        }
      }
      return false;
    }

    /** `play`, one roll per turn: the game ends as `Run` describes. A game without
        players fails at its first turn, as the source's `self.players[0]` does. */
    method Play(rolls: seq<int>) returns (outcome: Outcome<GameError>, used: nat)
      requires Valid() && ValidRolls(rolls)
      modifies players, this`currentPlayerIndex
      ensures Valid()
      ensures outcome.Fail? <==> players == []
      ensures players != [] ==>
        (State(Positions(), currentPlayerIndex), used)
        == Run(board, old(State(Positions(), currentPlayerIndex)), rolls)
    {
      used := 0;
      if players == [] {
        return Fail(IndexError), 0;
      }
      outcome := Pass;
      ghost var start := State(Positions(), currentPlayerIndex);
      ResumeStart(board, start, rolls);
      var over := IsGameOver();
      while !over && used < |rolls|
        invariant Valid() && players != []
        invariant over <==> GameOver(Positions())
        invariant Resumes(board, start, rolls, State(Positions(), currentPlayerIndex), used)
        decreases |rolls| - used
      {
        ResumeStep(board, start, rolls, State(Positions(), currentPlayerIndex), used);
        var won := TakeTurn(rolls[used]);
        used := used + 1;
        if won {
          break;
        }
        ghost var after := State(Positions(), currentPlayerIndex);
        over := IsGameOver();
        assert State(Positions(), currentPlayerIndex) == after;
      }
      ResumeEnd(board, start, rolls, State(Positions(), currentPlayerIndex), used);
    }

    /** The body of the source's loop for one roll: the current player moves, nobody
        else does; a player who reaches the last cell wins and keeps the turn, otherwise
        the turn passes to the next player. */
    method TakeTurn(roll: int) returns (won: bool)
      requires Valid() && currentPlayerIndex < |players| && MinRoll <= roll <= MaxRoll
      requires !GameOver(Positions())
      modifies players[currentPlayerIndex], this`currentPlayerIndex
      ensures Valid()
      ensures State(Positions(), currentPlayerIndex)
        == Turn(board, old(State(Positions(), currentPlayerIndex)), roll)
      ensures won <==> GameOver(Positions())
    {
      ghost var before := State(Positions(), currentPlayerIndex);
      ghost var after := Turn(board, before, roll);
      TurnEndsGame(board, before, roll);
      var position := MoveCurrentPlayer(roll);
      assert Positions() == after.positions;
      if position == BoardSize {
        assert after.current == currentPlayerIndex;
        return true;
      }
      currentPlayerIndex := (currentPlayerIndex + 1) % |players|;
      assert after.current == currentPlayerIndex;
      return false;
    }

    /** The first half of a turn: the current player rolls and moves, nobody else does. */
    method MoveCurrentPlayer(roll: int) returns (position: int)
      requires Valid() && currentPlayerIndex < |players| && MinRoll <= roll <= MaxRoll
      modifies players[currentPlayerIndex]
      ensures Valid()
      ensures Positions() == old(Positions())[currentPlayerIndex :=
        Advance(board, old(Positions())[currentPlayerIndex], roll)]
      ensures position == Positions()[currentPlayerIndex]
    {
      var player := players[currentPlayerIndex];
      ghost var ps := Positions();
      StandardBoardWellFormed();
      AdvanceStaysOnBoard(board, player.position, roll);
      position := NextPosition(board, player.position, roll);
      player.position := position;
      assert position == Advance(board, ps[currentPlayerIndex], roll);
      forall i | 0 <= i < |players| && i != currentPlayerIndex
        ensures players[i].position == ps[i]
      {
        assert players[i] != player;
      }
      assert Positions() == ps[currentPlayerIndex := position];
      assert AllOnBoard(Positions());
    }
  }
}
