/**
 The Java variant of the game, on a board of n x n cells.

 It is modelled as written: each scan of the win test overwrites the one before, and the test looks for marks
 that takes never place.  What follows is that no game is ever won; a game ends, tied, after exactly n * n takes.
 */
module JavaGame {
  import opened Wrappers
  import opened Moves

  datatype GameData = GameData(gameName: string, board: string, state: string, playerOne: string, playerTwo: string)

  /** RuntimeException stands for an unchecked exception, here an index out of bounds. */
  datatype Fault = InvalidTransaction | InternalError | RuntimeException

  // ----- square boards

  /** (int) Math.sqrt(n) */
  function ISqrt(n: nat): nat
  {
    if n == 0 then 0
    else
      var r := ISqrt(n - 1);
      if (r + 1) * (r + 1) <= n then r + 1 else r
  }

  lemma {:induction false} ISqrtBounds(n: nat)
    ensures ISqrt(n) * ISqrt(n) <= n < (ISqrt(n) + 1) * (ISqrt(n) + 1)
  {
    if n > 0 {
      ISqrtBounds(n - 1);
      var r := ISqrt(n - 1);
      assert (r + 2) * (r + 2) > (r + 1) * (r + 1) + 1;
    }
  }

  lemma {:induction false} SquareOrder(a: nat, b: nat)
    requires a < b
    ensures (a + 1) * (a + 1) <= b * b
  {
    assert (a + 1) * (a + 1) <= (a + 1) * b <= b * b;
  }

  lemma {:induction false} ISqrtOfSquare(n: nat)
    ensures ISqrt(n * n) == n
  {
    var r := ISqrt(n * n);
    ISqrtBounds(n * n);
    if r < n {
      SquareOrder(r, n);
    } else if n < r {
      SquareOrder(n, r);
    }
  }

  /** The index of a cell of a dim x dim board. */
  function Cell(dim: nat, row: nat, col: nat): (k: nat)
    requires row < dim && col < dim
    ensures k < dim * dim
  {
    assert row * dim + col < row * dim + dim == (row + 1) * dim <= dim * dim;
    row * dim + col
  }

  predicate AntiAt(b: string, dim: nat, letter: char, j: nat)
    requires dim * dim <= |b| && j < dim
  {
    b[Cell(dim, j, dim - 1 - j)] == letter
  }

  predicate FullRow(b: string, dim: nat, letter: char, row: nat)
    requires dim * dim <= |b| && row < dim
  {
    forall j: nat :: j < dim ==> b[Cell(dim, row, j)] == letter
  }

  predicate FullColumn(b: string, dim: nat, letter: char, col: nat)
    requires dim * dim <= |b| && col < dim
  {
    forall j: nat :: j < dim ==> b[Cell(dim, j, col)] == letter
  }

  predicate FullDiagonal(b: string, dim: nat, letter: char)
    requires dim * dim <= |b|
  {
    forall j: nat :: j < dim ==> b[Cell(dim, j, j)] == letter
  }

  predicate FullAntiDiagonal(b: string, dim: nat, letter: char)
    requires dim * dim <= |b|
  {
    forall j: nat :: j < dim ==> AntiAt(b, dim, letter, j)
  }

  /** What the win test finds, on a board of any length. */
  predicate AntiDiagonal(b: string, letter: char)
  {
    ISqrtBounds(|b|);
    FullAntiDiagonal(b, ISqrt(|b|), letter)
  }

  lemma {:induction false} DiagonalIndices(dim: nat, j: nat)
    requires j < dim
    ensures 0 <= j * (dim + 1) == Cell(dim, j, j) < dim * dim
    ensures 0 <= (j + 1) * (dim - 1) == Cell(dim, j, dim - 1 - j) < dim * dim
  {
    assert (j + 1) * (dim - 1) == j * dim - j + dim - 1;
  }

  /** The scan labelled horizontal, and, with the very same indices, the one labelled vertical. */
  method ScanRows(board: array<char>, dim: nat, letter: char) returns (win: bool)
    requires dim * dim <= board.Length
    ensures win ==> dim > 0 && FullRow(board[..], dim, letter, dim - 1)
    ensures dim > 0 && FullRow(board[..], dim, letter, dim - 1) ==> win
  {
    win := false;
    var i := 0;
    while i < dim
      invariant 0 <= i <= dim
      invariant win <==> i > 0 && FullRow(board[..], dim, letter, i - 1)
    {
      win := true;
      var j := 0;
      while j < dim
        invariant 0 <= j <= dim && win
        invariant forall k: nat :: k < j ==> board[Cell(dim, i, k)] == letter
      {
        assert Cell(dim, i, j) == i * dim + j;
        if board[i * dim + j] != letter {
          win := false;
          break;
        }
        j := j + 1;
      }
      i := i + 1;
    }
  }

  method ScanDiagonal(board: array<char>, dim: nat, letter: char) returns (win: bool)
    requires dim * dim <= board.Length
    ensures win <==> FullDiagonal(board[..], dim, letter)
  {
    win := true;
    var j := 0;
    while j < dim
      invariant 0 <= j <= dim && win
      invariant forall k: nat :: k < j ==> board[Cell(dim, k, k)] == letter
    {
      DiagonalIndices(dim, j);
      if board[j * (dim + 1)] != letter {
        win := false;
        break;
      }
      j := j + 1;
    }
  }

  method ScanAntiDiagonal(board: array<char>, dim: nat, letter: char) returns (win: bool)
    requires dim * dim <= board.Length
    ensures win <==> FullAntiDiagonal(board[..], dim, letter)
  {
    win := true;
    var j := 0;
    while j < dim
      invariant 0 <= j <= dim && win
      invariant forall k: nat :: k < j ==> AntiAt(board[..], dim, letter, k)
    {
      DiagonalIndices(dim, j);
      if board[(j + 1) * (dim - 1)] != letter {
        win := false;
        assert !AntiAt(board[..], dim, letter, j);
        break;
      }
      j := j + 1;
    }
  }

  /**
   The win test as written, on a board of any length.  No index leaves the board, and the answer is that of the
   last scan alone: the anti-diagonal.
   */
  method IsWin(board: array<char>, letter: char) returns (win: bool)
    ensures win <==> AntiDiagonal(board[..], letter)
  {
    var dim := ISqrt(board.Length);
    ISqrtBounds(board.Length);
    win := ScanRows(board, dim, letter);
    win := ScanRows(board, dim, letter);
    win := ScanDiagonal(board, dim, letter);
    win := ScanAntiDiagonal(board, dim, letter);
  }

  /** On an n x n board the win test takes n for the side: it is true exactly if that board's anti-diagonal is full. */
  lemma {:induction false} WinTestOnSquare(b: string, n: nat, letter: char)
    requires |b| == n * n
    ensures AntiDiagonal(b, letter) <==> FullAntiDiagonal(b, n, letter)
  {
    ISqrtOfSquare(n);
  }

  // ----- the handler

  function DetermineState(board: string, state: string): string
  {
    if AntiDiagonal(board, 'X') then "P1-WIN"
    else if AntiDiagonal(board, 'O') then "P2-WIN"
    else if '-' !in board then "TIE"
    else state
  }

  /** The handler's state on a square board: by the anti-diagonals, then by free cells, else the one handed in. */
  lemma {:induction false} StateOfSquare(b: string, n: nat, state: string)
    requires |b| == n * n
    ensures var s := DetermineState(b, state);
      && (FullAntiDiagonal(b, n, 'X') ==> s == "P1-WIN")
      && (!FullAntiDiagonal(b, n, 'X') && FullAntiDiagonal(b, n, 'O') ==> s == "P2-WIN")
      && (!FullAntiDiagonal(b, n, 'X') && !FullAntiDiagonal(b, n, 'O') ==> s == if '-' in b then state else "TIE")
  {
    WinTestOnSquare(b, n, 'X');
    WinTestOnSquare(b, n, 'O');
  }

  function Create(name: string, dim: nat, g: GameData): Result<GameData, Fault>
  {
    if g.board != "" then Err(InvalidTransaction)
    else Ok(GameData(name, Blank(dim * dim), "P1-NEXT", "", ""))
  }

  /** A take, from the range check on. */
  function Take(g: GameData, player: string, space: int): Result<GameData, Fault>
  {
    if space < 1 || space > |g.board| then Err(InvalidTransaction)
    else if g.state in ["P1-WIN", "P2-WIN", "TIE"] then Err(InvalidTransaction)
    else if g.state !in ["P1-NEXT", "P2-NEXT"] then Err(InternalError)
    else
      var one := if g.playerOne == "" then player else g.playerOne;
      var two := if g.playerOne != "" && g.playerTwo == "" then player else g.playerTwo;
      if g.board[space - 1] != '-' then Err(InvalidTransaction)
      else if g.state == "P1-NEXT" && player == one then
        var b := g.board[space - 1 := 'H'];
        Ok(GameData(g.gameName, b, DetermineState(b, "P2-NEXT"), one, two))
      else if g.state == "P2-NEXT" && player == two then
        var b := g.board[space - 1 := 'Q'];
        Ok(GameData(g.gameName, b, DetermineState(b, "P1-NEXT"), one, two))
      else Err(InvalidTransaction)
  }

  /** On any stored game: which takes succeed, and that an unknown state is the only internal error. */
  lemma {:induction false} TakeExactly(g: GameData, player: string, space: int)
    ensures var r := Take(g, player, space); var onBoard := 1 <= space <= |g.board|;
      var first := g.state == "P1-NEXT" && g.playerOne in {"", player};
      var second := g.state == "P2-NEXT" && (g.playerTwo == player || (g.playerOne != "" && g.playerTwo == ""));
      && (r == Err(InternalError) <==>
            onBoard && g.state !in ["P1-WIN", "P2-WIN", "TIE", "P1-NEXT", "P2-NEXT"])
      && (r.Ok? <==> onBoard && g.board[space - 1] == '-' && (first || second))
      && r != Err(RuntimeException)
  {
    assert "P1-NEXT"[1] != "P2-NEXT"[1];
  }

  method ApplyTake(g: GameData, player: string, space: int) returns (r: Result<GameData, Fault>)
    ensures r == Take(g, player, space)
  {
    if space < 1 || space > |g.board| { return Err(InvalidTransaction); }
    if g.state in ["P1-WIN", "P2-WIN", "TIE"] { return Err(InvalidTransaction); }
    if g.state !in ["P1-NEXT", "P2-NEXT"] { return Err(InternalError); }
    var updatedPlayerOne, updatedPlayerTwo := g.playerOne, g.playerTwo;
    if g.playerOne == "" {
      updatedPlayerOne := player;
    } else if g.playerTwo == "" {
      updatedPlayerTwo := player;
    }
    var boardList := new char[|g.board|](i requires 0 <= i < |g.board| => g.board[i]);
    assert boardList[..] == g.board;
    if boardList[space - 1] != '-' { return Err(InvalidTransaction); }
    var updatedState;
    if g.state == "P1-NEXT" && player == updatedPlayerOne {
      boardList[space - 1] := 'H';
      updatedState := "P2-NEXT";
    } else if g.state == "P2-NEXT" && player == updatedPlayerTwo {
      boardList[space - 1] := 'Q';
      updatedState := "P1-NEXT";
    } else {
      return Err(InvalidTransaction);
    }
    var xWins := IsWin(boardList, 'X');
    var oWins := IsWin(boardList, 'O');
    if xWins {
      updatedState := "P1-WIN";
    } else if oWins {
      updatedState := "P2-WIN";
    } else if '-' !in boardList[..] {
      updatedState := "TIE";
    }
    r := Ok(GameData(g.gameName, boardList[..], updatedState, updatedPlayerOne, updatedPlayerTwo));
  }

  // ----- the reference

  function HQ(cells: nat): Rules
  {
    Rules(cells, 'H', 'Q')
  }

  ghost predicate Legal(cells: nat, log: seq<Move>)
  {
    Fair(HQ(cells), log)
  }

  function Turn(moves: nat): string
  {
    if moves % 2 == 0 then "P1-NEXT" else "P2-NEXT"
  }

  /** Tied exactly when all cells are taken; otherwise the sides alternate.  There is no win. */
  ghost function StateAfter(cells: nat, moves: nat): string
  {
    if moves == cells then "TIE" else Turn(moves)
  }

  ghost function GameOf(name: string, cells: nat, log: seq<Move>): GameData
    requires OnBoard(HQ(cells), log)
  {
    GameData(name, Replay(HQ(cells), log), StateAfter(cells, |log|), Player(log, 0), Player(log, 1))
  }

  lemma {:induction false} CreateStarts(name: string, n: nat, g: GameData)
    requires n >= 1 && g.board == ""
    ensures Legal(n * n, []) && Create(name, n, g) == Ok(GameOf(name, n * n, []))
  {
    assert n * n >= 1;
  }

  lemma {:induction false} NoAntiDiagonal(b: string, letter: char)
    requires |b| >= 1 && letter !in b
    ensures !AntiDiagonal(b, letter)
  {
    ISqrtBounds(|b|);
    assert !AntiAt(b, ISqrt(|b|), letter, 0);
  }

  /** On a board of the game's own marks the win test fails, so the state depends on the number of moves only. */
  lemma {:induction false} NeverWon(cells: nat, log: seq<Move>)
    requires cells >= 1 && Legal(cells, log)
    ensures DetermineState(Replay(HQ(cells), log), Turn(|log|)) == StateAfter(cells, |log|)
  {
    var b := Replay(HQ(cells), log);
    NoForeignMark(HQ(cells), log, 'X');
    NoForeignMark(HQ(cells), log, 'O');
    NoAntiDiagonal(b, 'X');
    NoAntiDiagonal(b, 'O');
    CountMarks(HQ(cells), log);
    CountZero(b, '-');
  }

  lemma {:induction false} States()
    ensures "P1-NEXT"[1] != "P2-NEXT"[1] && |"P1-NEXT"| == 7 && |"P2-NEXT"| == 7
    ensures |"P1-WIN"| == 6 && |"P2-WIN"| == 6 && |"TIE"| == 3
  {
  }

  lemma {:induction false} TurnState(m: nat)
    ensures Turn(m) !in ["P1-WIN", "P2-WIN", "TIE"] && Turn(m) in ["P1-NEXT", "P2-NEXT"]
    ensures (Turn(m) == "P1-NEXT" <==> m % 2 == 0) && (Turn(m) == "P2-NEXT" <==> m % 2 == 1)
  {
    States();
  }

  /** The handler's code on a running game whose turn and cell are right. */
  lemma {:induction false} TakeSucceeds(g: GameData, player: string, k: nat, m: nat, next: GameData)
    requires k < |g.board| && g.board[k] == '-' && g.state == Turn(m)
    requires g.playerOne == "" ==> m % 2 == 0
    requires if m % 2 == 0 then g.playerOne in {"", player} else g.playerTwo in {"", player}
    requires next.gameName == g.gameName && next.board == g.board[k := if m % 2 == 0 then 'H' else 'Q']
    requires next.state == DetermineState(next.board, Turn(m + 1))
    requires next.playerOne == if g.playerOne == "" then player else g.playerOne
    requires next.playerTwo == if g.playerOne != "" && g.playerTwo == "" then player else g.playerTwo
    ensures Take(g, player, k + 1) == Ok(next)
  {
    TurnState(m);
    TurnState(m + 1);
  }

  /** What one more legal move makes of the game. */
  lemma {:induction false} NextGame(name: string, cells: nat, log: seq<Move>, move: Move, g: GameData, next: GameData)
    requires cells >= 1 && Legal(cells, log) && move.signer != "" && Legal(cells, log + [move])
    requires g == GameOf(name, cells, log) && next == GameOf(name, cells, log + [move])
    ensures 1 <= move.space <= cells && |g.board| == cells
    ensures next.board == g.board[move.space - 1 := if |log| % 2 == 0 then 'H' else 'Q']
    ensures next.state == DetermineState(next.board, Turn(|log| + 1))
    ensures next.playerOne == if g.playerOne == "" then move.signer else g.playerOne
    ensures next.playerTwo == if g.playerOne != "" && g.playerTwo == "" then move.signer else g.playerTwo
  {
    FairExtends(HQ(cells), log, move);
    ReplayMore(HQ(cells), log, move);
    Seats(HQ(cells), log);
    NeverWon(cells, log + [move]);
  }

  /** Why a game accepts a legal move. */
  lemma {:induction false} MoveFits(name: string, cells: nat, log: seq<Move>, move: Move, g: GameData)
    requires cells >= 1 && Legal(cells, log) && move.signer != "" && Legal(cells, log + [move])
    requires g == GameOf(name, cells, log)
    ensures 1 <= move.space <= cells && |g.board| == cells && g.board[move.space - 1] == '-'
    ensures g.state == Turn(|log|) && (g.playerOne == "" ==> |log| % 2 == 0)
    ensures if |log| % 2 == 0 then g.playerOne in {"", move.signer} else g.playerTwo in {"", move.signer}
  {
    FairExtends(HQ(cells), log, move);
    ReplayCell(HQ(cells), log, move.space - 1);
    CountMarks(HQ(cells), log + [move]);
    Seats(HQ(cells), log);
  }

  lemma {:induction false} TakeOnGame(name: string, cells: nat, log: seq<Move>, move: Move)
    requires cells >= 1 && Legal(cells, log) && move.signer != "" && Legal(cells, log + [move])
    ensures Take(GameOf(name, cells, log), move.signer, move.space) == Ok(GameOf(name, cells, log + [move]))
  {
    var g, next := GameOf(name, cells, log), GameOf(name, cells, log + [move]);
    MoveFits(name, cells, log, move, g);
    NextGame(name, cells, log, move, g, next);
    TakeSucceeds(g, move.signer, move.space - 1, |log|, next);
  }

  lemma {:induction false} TakeRefused(name: string, cells: nat, log: seq<Move>, move: Move)
    requires cells >= 1 && Legal(cells, log) && move.signer != "" && !Legal(cells, log + [move])
    ensures Take(GameOf(name, cells, log), move.signer, move.space) == Err(InvalidTransaction)
  {
    FairExtends(HQ(cells), log, move);
    States();
    Seats(HQ(cells), log);
    if 1 <= move.space <= cells {
      ReplayCell(HQ(cells), log, move.space - 1);
    }
  }

  /** A take is accepted exactly when the longer move list is legal, and then yields its game. */
  lemma {:induction false} TakeIffLegal(name: string, cells: nat, log: seq<Move>, move: Move)
    requires cells >= 1 && Legal(cells, log) && move.signer != ""
    ensures Take(GameOf(name, cells, log), move.signer, move.space)
         == if Legal(cells, log + [move]) then Ok(GameOf(name, cells, log + [move])) else Err(InvalidTransaction)
  {
    if Legal(cells, log + [move]) {
      TakeOnGame(name, cells, log, move);
    } else {
      TakeRefused(name, cells, log, move);
    }
  }

  /** Every reachable game: all its cells, counts that follow the turn, never won, tied exactly when no cell is free. */
  lemma {:induction false} GameInvariant(name: string, cells: nat, log: seq<Move>)
    requires cells >= 1 && Legal(cells, log)
    ensures var g := GameOf(name, cells, log);
      && |g.board| == cells && |log| <= cells
      && Count(g.board, 'H') == Count(g.board, 'Q') + |log| % 2
      && Count(g.board, 'H') + Count(g.board, 'Q') == |log|
      && g.state != "P1-WIN" && g.state != "P2-WIN"
      && (g.state == "TIE" <==> |log| == cells) && (g.state == "TIE" <==> '-' !in g.board)
      && (g.state == "P2-NEXT" <==> |log| < cells && |log| % 2 == 1)
  {
    CountMarks(HQ(cells), log);
    CountZero(Replay(HQ(cells), log), '-');
    States();
  }

  // ----- what the state should be

  /** A completed row, column or diagonal. */
  ghost predicate HasLine(b: string, dim: nat, letter: char)
    requires dim * dim <= |b|
  {
    || (exists i: nat :: i < dim && FullRow(b, dim, letter, i))
    || (exists i: nat :: i < dim && FullColumn(b, dim, letter, i))
    || FullDiagonal(b, dim, letter)
    || FullAntiDiagonal(b, dim, letter)
  }

  /** The state the game's rules call for. */
  ghost function Due(b: string, dim: nat, moves: nat): string
    requires dim * dim <= |b|
  {
    if HasLine(b, dim, 'H') then "P1-WIN"
    else if HasLine(b, dim, 'Q') then "P2-WIN"
    else if '-' !in b then "TIE"
    else Turn(moves)
  }

  /** The handler's state is the one called for exactly as long as neither side has completed a line. */
  lemma {:induction false} StateDueExactly(name: string, n: nat, log: seq<Move>)
    requires n >= 1 && Legal(n * n, log)
    ensures var g := GameOf(name, n * n, log);
      g.state == Due(g.board, n, |log|) <==> !HasLine(g.board, n, 'H') && !HasLine(g.board, n, 'Q')
  {
    assert n * n >= 1;
    GameInvariant(name, n * n, log);
    States();
  }

  /** Side H fills row 0 from the left while side Q follows it in row 1. */
  ghost function RowMoves(n: nat): (log: seq<Move>)
    requires n >= 1
    ensures |log| == 2 * n - 1
  {
    seq(2 * n - 1, (j: nat) => if j % 2 == 0 then Move("h", j / 2 + 1) else Move("q", n + j / 2 + 1))
  }

  lemma {:induction false} RowMovesLegal(n: nat)
    requires n >= 1
    ensures Legal(n * n, RowMoves(n))
  {
    var log := RowMoves(n);
    if n > 1 { assert n * n >= 2 * n; }
    forall j | 0 <= j < |log|
      ensures 1 <= log[j].space <= n * n && SignedBy(log, j)
    {
    }
  }

  lemma {:induction false} RowFilled(n: nat)
    requires n >= 1 && Legal(n * n, RowMoves(n))
    ensures FullRow(Replay(HQ(n * n), RowMoves(n)), n, 'H', 0)
  {
    var log := RowMoves(n);
    forall j: nat | j < n
      ensures Replay(HQ(n * n), log)[Cell(n, 0, j)] == 'H'
    {
      ReplayMark(HQ(n * n), log, 2 * j);
      assert log[2 * j].space == j + 1 && Cell(n, 0, j) == j;
    }
  }

  /** Such lines do come up: on every board play can fill a row, and is then not told that it has won. */
  lemma {:induction false} RowNotRecognised(name: string, n: nat)
    requires n >= 1
    ensures Legal(n * n, RowMoves(n))
    ensures var g := GameOf(name, n * n, RowMoves(n));
      && FullRow(g.board, n, 'H', 0) && Due(g.board, n, |RowMoves(n)|) == "P1-WIN"
      && g.state == if n == 1 then "TIE" else "P2-NEXT"
  {
    RowMovesLegal(n);
    RowFilled(n);
    if n > 1 { assert 2 * n - 1 < 2 * n <= n * n; }
  }

  // ----- whole games

  /** The outcomes of a list of takes on one game, refused ones leaving it alone. */
  ghost function Play(g: GameData, takes: seq<Move>): GameData
    decreases |takes|
  {
    if takes == [] then g
    else
      var r := Take(g, takes[0].signer, takes[0].space);
      Play(if r.Ok? then r.value else g, takes[1..])
  }

  /** Any takes on a new game lead to the game of some legal list of moves. */
  lemma {:induction false} PlayIsLegal(name: string, cells: nat, log: seq<Move>, takes: seq<Move>)
    returns (final: seq<Move>)
    requires cells >= 1 && Legal(cells, log) && forall i :: 0 <= i < |takes| ==> takes[i].signer != ""
    ensures Legal(cells, final) && Play(GameOf(name, cells, log), takes) == GameOf(name, cells, final)
    decreases |takes|
  {
    if takes == [] {
      final := log;
    } else {
      TakeIffLegal(name, cells, log, takes[0]);
      if Legal(cells, log + [takes[0]]) {
        final := PlayIsLegal(name, cells, log + [takes[0]], takes[1..]);
      } else {
        final := PlayIsLegal(name, cells, log, takes[1..]);
      }
    }
  }
}
