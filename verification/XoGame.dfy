/**
 The rules of one game.

 `Take` is the handler's code for a take, on any stored game whatsoever.  `GameOf` is the reference: the game is
 determined by the list of moves made so far.  The main result is that on games that come from legal move lists,
 a take is accepted exactly when the longer list is legal, and yields the game of that list.
 */
module XoGame {
  import opened Wrappers
  import opened XoCodec
  import opened Moves

  const XO := Rules(9, 'X', 'O')

  // ----- the handler's code

  const WINS := [(1, 2, 3), (4, 5, 6), (7, 8, 9), (1, 4, 7), (2, 5, 8), (3, 6, 9), (1, 5, 9), (3, 5, 7)]

  /** A comparison that may index past the end of the board. */
  datatype Check = Yes | No | OutOfRange

  function And(board: string, index: nat, letter: char, rest: Check): Check
  {
    if index >= |board| then OutOfRange else if board[index] == letter then rest else No
  }

  function LineCheck(board: string, win: (int, int, int), letter: char): Check
    requires 1 <= win.0 && 1 <= win.1 && 1 <= win.2
  {
    And(board, win.0 - 1, letter, And(board, win.1 - 1, letter, And(board, win.2 - 1, letter, Yes)))
  }

  function IsWinFrom(board: string, letter: char, i: nat): Check
    requires i <= 8
    decreases 8 - i
  {
    if i == 8 then No
    else
      match LineCheck(board, WINS[i], letter)
      case Yes => Yes
      case OutOfRange => OutOfRange
      case No => IsWinFrom(board, letter, i + 1)
  }

  function IsWin(board: string, letter: char): Check
  {
    IsWinFrom(board, letter, 0)
  }

  /** None when no mark is bound, which Python reports when the mark is used. */
  function UpdateBoard(board: string, space: int, state: string): Option<string>
  {
    var index := space - 1;
    if state == "P1-NEXT" then
      Some(seq(|board|, i requires 0 <= i < |board| => if i != index then board[i] else 'X'))
    else if state == "P2-NEXT" then
      Some(seq(|board|, i requires 0 <= i < |board| => if i != index then board[i] else 'O'))
    else if 0 <= index < |board| then None
    else Some(board)
  }

  function UpdateGameState(gameState: string, board: string): Result<string, Failure>
  {
    var xWins := IsWin(board, 'X');
    var oWins := IsWin(board, 'O');
    if xWins.OutOfRange? || oWins.OutOfRange? then Err(PythonError)
    else if xWins.Yes? && oWins.Yes? then Err(InternalError(TwoWinners))
    else if xWins.Yes? then Ok("P1-WIN")
    else if oWins.Yes? then Ok("P2-WIN")
    else if '-' !in board then Ok("TIE")
    else if gameState == "P1-NEXT" then Ok("P2-NEXT")
    else if gameState == "P2-NEXT" then Ok("P1-NEXT")
    else if gameState in ["P1-WINS", "P2-WINS", "TIE"] then Ok(gameState)
    else Err(InternalError(UnhandledState))
  }

  function Take(game: Game, signer: string, space: int): Result<Game, Failure>
    requires 1 <= space <= 9
  {
    if game.state in ["P1-WIN", "P2-WIN", "TIE"] then Err(InvalidTransaction(GameEnded))
    else if (game.player1 != "" && game.state == "P1-NEXT" && game.player1 != signer)
         || (game.player2 != "" && game.state == "P2-NEXT" && game.player2 != signer) then
      Err(InvalidTransaction(NotYourTurn))
    else if space - 1 >= |game.board| then Err(PythonError)
    else if game.board[space - 1] != '-' then Err(InvalidTransaction(SpaceTaken))
    else
      var seated :=
        if game.player1 == "" then game.(player1 := signer)
        else if game.player2 == "" then game.(player2 := signer)
        else game;
      match UpdateBoard(game.board, space, game.state)
      case None => Err(PythonError)
      case Some(board) =>
        match UpdateGameState(game.state, board)
        case Err(e) => Err(e)
        case Ok(state) => Ok(seated.(board := board, state := state))
  }

  function NewGame(name: string): Game
  {
    Game(name, Blank(9), "P1-NEXT", "", "")
  }

  // ----- the reference: lines by geometry, games by their moves

  /** The i-th cell of line l: three rows, three columns and the two diagonals of the 3 x 3 board. */
  function Spot(l: nat, i: nat): (k: nat)
    requires l < 8 && i < 3
    ensures k < 9
  {
    if l < 3 then 3 * l + i
    else if l < 6 then 3 * i + (l - 3)
    else if l == 6 then 3 * i + i
    else 3 * i + (2 - i)
  }

  ghost predicate LineAt(b: string, m: char, l: nat)
    requires |b| == 9 && l < 8
  {
    b[Spot(l, 0)] == m && b[Spot(l, 1)] == m && b[Spot(l, 2)] == m
  }

  ghost predicate HasLine(b: string, m: char)
    requires |b| == 9
  {
    exists l: nat :: l < 8 && LineAt(b, m, l)
  }

  lemma {:induction false} IsWinFromIsLine(b: string, m: char, i: nat)
    requires |b| == 9 && i <= 8
    ensures IsWinFrom(b, m, i) == if exists l: nat :: i <= l < 8 && LineAt(b, m, l) then Yes else No
    decreases 8 - i
  {
    if i < 8 {
      IsWinFromIsLine(b, m, i + 1);
      assert WINS[i] == (Spot(i, 0) + 1, Spot(i, 1) + 1, Spot(i, 2) + 1);
      assert LineCheck(b, WINS[i], m) == if LineAt(b, m, i) then Yes else No;
    }
  }

  /** The handler's table of winning triples is exactly the lines of the board. */
  lemma {:induction false} IsWinIsLine(b: string, m: char)
    requires |b| == 9
    ensures IsWin(b, m) == if HasLine(b, m) then Yes else No
  {
    IsWinFromIsLine(b, m, 0);
  }

  ghost function Status(b: string, moves: nat): string
    requires |b| == 9
  {
    if HasLine(b, 'X') then "P1-WIN"
    else if HasLine(b, 'O') then "P2-WIN"
    else if '-' !in b then "TIE"
    else if moves % 2 == 0 then "P1-NEXT"
    else "P2-NEXT"
  }

  ghost function GameOf(name: string, log: seq<Move>): Game
    requires OnBoard(XO, log)
  {
    Game(name, Replay(XO, log), Status(Replay(XO, log), |log|), Player(log, 0), Player(log, 1))
  }

  /** The game goes on: no line, and a free cell. */
  ghost predicate Open(b: string)
    requires |b| == 9
  {
    !HasLine(b, 'X') && !HasLine(b, 'O') && '-' in b
  }

  ghost predicate RunningBefore(log: seq<Move>, j: nat)
    requires OnBoard(XO, log) && j <= |log|
  {
    Open(Replay(XO, log[..j]))
  }

  /** The moves a game allows: free spaces, each side always played by its first signer, nothing after the end. */
  ghost predicate Legal(log: seq<Move>)
  {
    && Fair(XO, log)
    && (forall j :: 0 <= j < |log| ==> RunningBefore(log, j))
  }

  // ----- what the board shows of the moves

  /** Every X on the board was placed by player 1 and every O by player 2, in a take of that very space. */
  lemma {:induction false} MarksSigned(name: string, log: seq<Move>, k: nat) returns (j: nat)
    requires Legal(log) && k < 9 && Replay(XO, log)[k] != '-'
    ensures j < |log| && log[j].space == k + 1
    ensures GameOf(name, log).board[k] == MarkOf(XO, j)
    ensures log[j].signer == if MarkOf(XO, j) == 'X' then GameOf(name, log).player1 else GameOf(name, log).player2
  {
    ReplayCell(XO, log, k);
    j :| 0 <= j < |log| && log[j].space == k + 1;
    ReplayMark(XO, log, j);
    assert SignedBy(log, j);
  }

  // ----- main result on one game

  /** Placing a mark cannot complete a line of the other mark. */
  lemma {:induction false} OnlyOwnLine(b: string, k: nat, m: char, other: char)
    requires |b| == 9 && k < 9 && m != other
    requires !HasLine(b, other)
    ensures !HasLine(b[k := m], other)
  {
    var c := b[k := m];
    if l: nat :| l < 8 && LineAt(c, other, l) {
      assert LineAt(b, other, l);
    }
  }

  /** One more legal move: the game is running, the space is free, and the signer plays that side. */
  ghost predicate Extends(log: seq<Move>, move: Move)
    requires OnBoard(XO, log)
  {
    Open(Replay(XO, log)) && MayMove(XO, log, move)
  }

  lemma {:induction false} LegalExtends(log: seq<Move>, move: Move)
    requires Legal(log) && move.signer != ""
    ensures Legal(log + [move]) <==> Extends(log, move)
  {
    var longer, n := log + [move], |log|;
    FairExtends(XO, log, move);
    assert longer[..n] == log;
    if Fair(XO, longer) {
      assert RunningBefore(longer, n) == Open(Replay(XO, log));
      forall j | 0 <= j < n
        ensures RunningBefore(longer, j)
      {
        assert longer[..j] == log[..j];
        assert RunningBefore(log, j);
      }
    }
  }

  /** The handler's new state is the status of the new board. */
  lemma {:induction false} StateIsStatus(b: string, k: nat, n: nat, state: string)
    requires |b| == 9 && k < 9 && Open(b)
    requires state == Status(b, n)
    ensures UpdateGameState(state, b[k := MarkOf(XO, n)]) == Ok(Status(b[k := MarkOf(XO, n)], n + 1))
  {
    var c := b[k := MarkOf(XO, n)];
    IsWinIsLine(c, 'X');
    IsWinIsLine(c, 'O');
    OnlyOwnLine(b, k, MarkOf(XO, n), if MarkOf(XO, n) == 'X' then 'O' else 'X');
    assert state == if n % 2 == 0 then "P1-NEXT" else "P2-NEXT";
    assert state[1] == if n % 2 == 0 then '1' else '2';
  }

  lemma {:induction false} StatesDiffer()
    ensures "P1-NEXT"[1] != "P2-NEXT"[1] && "P1-WIN"[1] != "P2-WIN"[1]
    ensures |"P1-NEXT"| == |"P2-NEXT"| == 7 && |"P1-WIN"| == |"P2-WIN"| == 6 && |"TIE"| == 3
  {
  }

  /** On any board, whatever the stored state: who has won by the lines, and when neither case is handled. */
  lemma {:induction false} StateExactly(gameState: string, b: string)
    requires |b| == 9
    ensures var r, x, o := UpdateGameState(gameState, b), HasLine(b, 'X'), HasLine(b, 'O');
      && (r == Err(InternalError(TwoWinners)) <==> x && o)
      && (x && !o ==> r == Ok("P1-WIN")) && (o && !x ==> r == Ok("P2-WIN"))
      && (!x && !o && '-' !in b ==> r == Ok("TIE"))
      && (r == Err(InternalError(UnhandledState)) <==>
            !x && !o && '-' in b && gameState !in ["P1-NEXT", "P2-NEXT", "P1-WINS", "P2-WINS", "TIE"])
  {
    IsWinIsLine(b, 'X');
    IsWinIsLine(b, 'O');
  }

  /** On any stored game of nine cells: the reason of every refusal. */
  lemma {:induction false} TakeRefusedExactly(g: Game, signer: string, space: int)
    requires |g.board| == 9 && 1 <= space <= 9
    ensures var r := Take(g, signer, space); var ended := g.state in ["P1-WIN", "P2-WIN", "TIE"];
      var mine := (g.state == "P1-NEXT" ==> g.player1 in {"", signer})
        && (g.state == "P2-NEXT" ==> g.player2 in {"", signer});
      && (r == Err(InvalidTransaction(GameEnded)) <==> ended)
      && (r == Err(InvalidTransaction(NotYourTurn)) <==> !ended && !mine)
      && (r == Err(InvalidTransaction(SpaceTaken)) <==> !ended && mine && g.board[space - 1] != '-')
      && (r == Err(PythonError) <==>
            !ended && mine && g.board[space - 1] == '-' && g.state !in ["P1-NEXT", "P2-NEXT"])
      && r != Err(InternalError(UnhandledState))
  {
    if g.state in ["P1-NEXT", "P2-NEXT"] {
      var b := UpdateBoard(g.board, space, g.state).value;
      IsWinIsLine(b, 'X');
      IsWinIsLine(b, 'O');
    }
  }

  lemma {:induction false} BoardIsReplay(b: string, k: nat, n: nat, state: string)
    requires |b| == 9 && k < 9 && state == if n % 2 == 0 then "P1-NEXT" else "P2-NEXT"
    ensures UpdateBoard(b, k + 1, state) == Some(b[k := MarkOf(XO, n)])
  {
    StatesDiffer();
    assert seq(|b|, i requires 0 <= i < |b| => if i != k then b[i] else 'X') == b[k := 'X'];
    assert seq(|b|, i requires 0 <= i < |b| => if i != k then b[i] else 'O') == b[k := 'O'];
    if n % 2 == 1 { assert state[1] == '2'; }
  }

  /** The handler's code on an open game whose turn and cell are right. */
  lemma {:induction false} TakeSucceeds(g: Game, signer: string, k: nat, n: nat, next: Game)
    requires |g.board| == 9 && k < 9 && Open(g.board) && g.board[k] == '-' && g.state == Status(g.board, n)
    requires if n % 2 == 0 then g.player1 in {"", signer} else g.player2 in {"", signer}
    requires next.name == g.name && next.board == g.board[k := MarkOf(XO, n)] && next.state == Status(next.board, n + 1)
    requires next.player1 == if g.player1 == "" then signer else g.player1
    requires next.player2 == if g.player1 != "" && g.player2 == "" then signer else g.player2
    ensures Take(g, signer, k + 1) == Ok(next)
  {
    StatesDiffer();
    assert g.state == if n % 2 == 0 then "P1-NEXT" else "P2-NEXT";
    StateIsStatus(g.board, k, n, g.state);
    BoardIsReplay(g.board, k, n, g.state);
  }

  /** What one more legal move makes of the game. */
  lemma {:induction false} NextGame(name: string, log: seq<Move>, move: Move, g: Game, next: Game)
    requires Legal(log) && 1 <= move.space <= 9 && move.signer != ""
    requires Extends(log, move) && OnBoard(XO, log + [move])
    requires g == GameOf(name, log) && next == GameOf(name, log + [move])
    ensures next.board == g.board[move.space - 1 := MarkOf(XO, |log|)] && next.state == Status(next.board, |log| + 1)
    ensures next.player1 == if g.player1 == "" then move.signer else g.player1
    ensures next.player2 == if g.player1 != "" && g.player2 == "" then move.signer else g.player2
  {
    ReplayMore(XO, log, move);
    Seats(XO, log);
  }

  lemma {:induction false} TakeWhenExtends(name: string, log: seq<Move>, move: Move)
    requires Legal(log) && 1 <= move.space <= 9 && move.signer != ""
    requires Extends(log, move) && OnBoard(XO, log + [move])
    ensures Take(GameOf(name, log), move.signer, move.space) == Ok(GameOf(name, log + [move]))
  {
    var g, next := GameOf(name, log), GameOf(name, log + [move]);
    ReplayCell(XO, log, move.space - 1);
    NextGame(name, log, move, g, next);
    TakeSucceeds(g, move.signer, move.space - 1, |log|, next);
  }

  lemma {:induction false} StatusMeans(b: string, n: nat)
    requires |b| == 9
    ensures var s := Status(b, n);
      && s in {"P1-NEXT", "P2-NEXT", "P1-WIN", "P2-WIN", "TIE"}
      && (s == "P1-WIN" <==> HasLine(b, 'X')) && (s == "P2-WIN" <==> !HasLine(b, 'X') && HasLine(b, 'O'))
      && (s in {"P1-NEXT", "P2-NEXT"} <==> Open(b)) && (s == "P2-NEXT" <==> Open(b) && n % 2 == 1)
  {
    StatesDiffer();
  }

  ghost predicate Running(log: seq<Move>)
  {
    OnBoard(XO, log) && Open(Replay(XO, log))
  }

  /** Why a move is refused: the game has ended, else the side is another's, else the space is taken. */
  ghost function Refusal(log: seq<Move>, move: Move): Reason
  {
    if !Running(log) then GameEnded
    else if Player(log, |log| % 2) !in {"", move.signer} then NotYourTurn
    else SpaceTaken
  }

  lemma {:induction false} TakeWhenNot(name: string, log: seq<Move>, move: Move)
    requires Legal(log) && 1 <= move.space <= 9 && move.signer != ""
    requires !Extends(log, move)
    ensures Take(GameOf(name, log), move.signer, move.space) == Err(InvalidTransaction(Refusal(log, move)))
  {
    ReplayCell(XO, log, move.space - 1);
    StatusMeans(Replay(XO, log), |log|);
    Seats(XO, log);
  }

  /**
   On the game of a legal move list, a take is accepted exactly when the longer list is legal; it then yields the
   game of that list, and otherwise it is refused as an invalid transaction for the reason due: never an internal error.
   */
  lemma {:induction false} TakeIffLegal(name: string, log: seq<Move>, move: Move)
    requires Legal(log) && 1 <= move.space <= 9 && move.signer != ""
    ensures var r := Take(GameOf(name, log), move.signer, move.space);
      r == if Legal(log + [move]) then Ok(GameOf(name, log + [move])) else Err(InvalidTransaction(Refusal(log, move)))
  {
    LegalExtends(log, move);
    if Extends(log, move) {
      TakeWhenExtends(name, log, move);
    } else {
      TakeWhenNot(name, log, move);
    }
  }

  // ----- what holds of every reachable game

  /** A line of one mark appears only with that side's own move. */
  lemma {:induction false} NoOtherLine(log: seq<Move>, other: char)
    requires Legal(log) && log != [] && other != MarkOf(XO, |log| - 1) && (other == 'X' || other == 'O')
    ensures !HasLine(Replay(XO, log), other)
  {
    var last := |log| - 1;
    assert RunningBefore(log, last);
    OnlyOwnLine(Replay(XO, log[..last]), log[last].space - 1, MarkOf(XO, last), other);
  }

  /** Marks by state, lines by state, and at most nine moves, for every game that legal moves lead to. */
  lemma {:induction false} GameInvariant(name: string, log: seq<Move>)
    requires Legal(log)
    ensures |log| <= 9 && |GameOf(name, log).board| == 9
    ensures var g := GameOf(name, log);
      && (forall k :: 0 <= k < 9 ==> g.board[k] in {'-', 'X', 'O'})
      && g.state in {"P1-NEXT", "P2-NEXT", "P1-WIN", "P2-WIN", "TIE"}
      && Count(g.board, 'X') == Count(g.board, 'O') + (if g.state in {"P2-NEXT", "P1-WIN", "TIE"} then 1 else 0)
      && (g.state in {"P1-NEXT", "P2-NEXT"} <==> Open(g.board))
      && (HasLine(g.board, 'X') <==> g.state == "P1-WIN")
      && (HasLine(g.board, 'O') <==> g.state == "P2-WIN")
  {
    var n, b := |log|, Replay(XO, log);
    CountMarks(XO, log);
    CountZero(b, '-');
    forall k | 0 <= k < 9
      ensures b[k] in {'-', 'X', 'O'}
    {
      ReplayCell(XO, log, k);
    }
    if n > 0 { NoOtherLine(log, if MarkOf(XO, n - 1) == 'X' then 'O' else 'X'); }
    StatusMeans(b, n);
  }
}
