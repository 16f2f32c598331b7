/**
 Boards replayed from lists of moves, for any number of cells and any pair of marks, and counting of marks.
 Two sides place their marks in turn; everything a board shows follows from the moves.
 */
module Moves {

  datatype Move = Move(signer: string, space: int)

  /** The size of the board and the marks of the side that moves first and of the other. */
  datatype Rules = Rules(cells: nat, first: char, second: char)
  {
    predicate Valid()
    {
      first != second && first != '-' && second != '-'
    }
  }

  function MarkOf(r: Rules, j: nat): char
  {
    if j % 2 == 0 then r.first else r.second
  }

  ghost predicate OnBoard(r: Rules, log: seq<Move>)
  {
    forall j :: 0 <= j < |log| ==> 1 <= log[j].space <= r.cells
  }

  ghost predicate DistinctSpaces(log: seq<Move>)
  {
    forall i, j :: 0 <= i < j < |log| ==> log[i].space != log[j].space
  }

  function Blank(cells: nat): (b: string)
    ensures |b| == cells
  {
    seq(cells, _ => '-')
  }

  /** The board after the moves. */
  ghost function Replay(r: Rules, log: seq<Move>): (b: string)
    requires OnBoard(r, log)
    ensures |b| == r.cells
  {
    if log == [] then Blank(r.cells)
    else
      var last := |log| - 1;
      Replay(r, log[..last])[log[last].space - 1 := MarkOf(r, last)]
  }

  /** Who plays this side: the signer of the first, or of the second, move. */
  ghost function Player(log: seq<Move>, side: nat): string
  {
    if |log| > side then log[side].signer else ""
  }

  /** Each side is always played by the signer of its first move. */
  ghost predicate SignedBy(log: seq<Move>, j: nat)
    requires j < |log|
  {
    log[j].signer != "" && log[j].signer == Player(log, j % 2)
  }

  /** Moves on free cells of the board, each side played by one signer throughout. */
  ghost predicate Fair(r: Rules, log: seq<Move>)
  {
    OnBoard(r, log) && DistinctSpaces(log) && forall j :: 0 <= j < |log| ==> SignedBy(log, j)
  }

  /** A seat is empty exactly until that side has moved. */
  lemma {:induction false} Seats(r: Rules, log: seq<Move>)
    requires Fair(r, log)
    ensures (Player(log, 0) == "" <==> |log| == 0) && (Player(log, 1) == "" <==> |log| <= 1)
  {
    if |log| > 0 { assert SignedBy(log, 0); }
    if |log| > 1 { assert SignedBy(log, 1); }
  }

  ghost predicate Untouched(log: seq<Move>, k: nat)
  {
    forall j :: 0 <= j < |log| ==> log[j].space != k + 1
  }

  /** One more fair move: a cell of the board that is free, taken by the signer whose turn it is. */
  ghost predicate MayMove(r: Rules, log: seq<Move>, move: Move)
  {
    1 <= move.space <= r.cells && Untouched(log, move.space - 1) && Player(log, |log| % 2) in {"", move.signer}
  }

  lemma {:induction false} FairExtends(r: Rules, log: seq<Move>, move: Move)
    requires Fair(r, log) && move.signer != ""
    ensures Fair(r, log + [move]) <==> MayMove(r, log, move)
  {
    var longer, m := log + [move], |log|;
    assert longer[m] == move && forall j :: 0 <= j < m ==> longer[j] == log[j];
    forall j | 0 <= j < m
      ensures SignedBy(longer, j)
    {
      assert SignedBy(log, j);
    }
    Seats(r, log);
    assert SignedBy(longer, m) <==> Player(log, m % 2) in {"", move.signer};
  }

  lemma {:induction false} ReplayMore(r: Rules, log: seq<Move>, move: Move)
    requires OnBoard(r, log) && 1 <= move.space <= r.cells
    ensures OnBoard(r, log + [move])
    ensures Replay(r, log + [move]) == Replay(r, log)[move.space - 1 := MarkOf(r, |log|)]
    ensures Player(log + [move], 0) == if |log| == 0 then move.signer else Player(log, 0)
    ensures Player(log + [move], 1) == if |log| == 1 then move.signer else Player(log, 1)
  {
    assert (log + [move])[..|log|] == log;
  }

  /** Every move's space carries that side's mark. */
  lemma {:induction false} ReplayMark(r: Rules, log: seq<Move>, j: nat)
    requires OnBoard(r, log) && DistinctSpaces(log) && j < |log|
    ensures Replay(r, log)[log[j].space - 1] == MarkOf(r, j)
    decreases |log|
  {
    var last := |log| - 1;
    if j < last {
      ReplayMark(r, log[..last], j);
      assert log[..last][j] == log[j];
    }
  }

  /** Every other cell is free. */
  lemma {:induction false} ReplayFree(r: Rules, log: seq<Move>, k: nat)
    requires OnBoard(r, log) && k < r.cells && Untouched(log, k)
    ensures Replay(r, log)[k] == '-'
    decreases |log|
  {
    if log != [] {
      ReplayFree(r, log[..|log| - 1], k);
    }
  }

  lemma {:induction false} ReplayCell(r: Rules, log: seq<Move>, k: nat)
    requires r.Valid() && OnBoard(r, log) && DistinctSpaces(log) && k < r.cells
    ensures Replay(r, log)[k] == '-' <==> Untouched(log, k)
    ensures Replay(r, log)[k] == '-' || Replay(r, log)[k] == r.first || Replay(r, log)[k] == r.second
  {
    if Untouched(log, k) {
      ReplayFree(r, log, k);
    } else {
      var j :| 0 <= j < |log| && log[j].space == k + 1;
      ReplayMark(r, log, j);
    }
  }

  lemma {:induction false} NoForeignMark(r: Rules, log: seq<Move>, c: char)
    requires r.Valid() && OnBoard(r, log) && DistinctSpaces(log)
    requires c != '-' && c != r.first && c != r.second
    ensures c !in Replay(r, log)
  {
    if k :| 0 <= k < r.cells && Replay(r, log)[k] == c {
      ReplayCell(r, log, k);
    }
  }

  /** A mark that is on the board stays there, whatever moves follow. */
  lemma {:induction false} MarksStay(r: Rules, log: seq<Move>, n: nat, k: nat)
    requires r.Valid() && OnBoard(r, log) && DistinctSpaces(log) && n <= |log| && k < r.cells
    requires Replay(r, log[..n])[k] != '-'
    ensures Replay(r, log)[k] == Replay(r, log[..n])[k]
  {
    ReplayCell(r, log[..n], k);
    var j :| 0 <= j < n && log[..n][j].space == k + 1;
    assert log[..n][j] == log[j];
    ReplayMark(r, log[..n], j);
    ReplayMark(r, log, j);
  }

  // ----- counting

  ghost function Count(b: string, m: char): nat
  {
    if b == "" then 0 else (if b[0] == m then 1 else 0) + Count(b[1..], m)
  }

  lemma {:induction false} CountUpdate(b: string, k: nat, mark: char, m: char)
    requires k < |b|
    ensures Count(b[k := mark], m) == Count(b, m) - (if b[k] == m then 1 else 0) + (if mark == m then 1 else 0)
    decreases k
  {
    if k == 0 {
      assert b[0 := mark][1..] == b[1..];
    } else {
      assert b[k := mark][1..] == b[1..][k - 1 := mark];
      CountUpdate(b[1..], k - 1, mark, m);
    }
  }

  lemma {:induction false} CountAll(b: string, m: char)
    requires forall k :: 0 <= k < |b| ==> b[k] == m
    ensures forall other :: Count(b, other) == if other == m then |b| else 0
    decreases |b|
  {
    if b != "" { CountAll(b[1..], m); }
  }

  lemma {:induction false} CountZero(b: string, m: char)
    ensures Count(b, m) == 0 <==> m !in b
    decreases |b|
  {
    if b != "" {
      CountZero(b[1..], m);
      assert b == [b[0]] + b[1..];
    }
  }

  lemma {:induction false} CountMove(r: Rules, b: string, k: nat, n: nat)
    requires r.Valid() && k < |b| && b[k] == '-'
    ensures var c := b[k := MarkOf(r, n)];
      && Count(c, '-') == Count(b, '-') - 1
      && Count(c, r.first) == Count(b, r.first) + 1 - n % 2
      && Count(c, r.second) == Count(b, r.second) + n % 2
  {
    CountUpdate(b, k, MarkOf(r, n), r.first);
    CountUpdate(b, k, MarkOf(r, n), r.second);
    CountUpdate(b, k, MarkOf(r, n), '-');
  }

  /** The marks of both sides and the free cells, counted; so there are never more moves than cells. */
  lemma {:induction false} CountMarks(r: Rules, log: seq<Move>)
    requires r.Valid() && OnBoard(r, log) && DistinctSpaces(log)
    ensures Count(Replay(r, log), r.first) == (|log| + 1) / 2
    ensures Count(Replay(r, log), r.second) == |log| / 2
    ensures Count(Replay(r, log), '-') == r.cells - |log|
    decreases |log|
  {
    if log == [] {
      CountAll(Blank(r.cells), '-');
    } else {
      var last := |log| - 1;
      var b, k := Replay(r, log[..last]), log[last].space - 1;
      CountMarks(r, log[..last]);
      ReplayFree(r, log[..last], k);
      CountMove(r, b, k, last);
    }
  }
}
