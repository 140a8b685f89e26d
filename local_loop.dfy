/**
 * game/local/loop.go: a game against the built-in opponent.  `Loop` owns a
 * game board and the `GameResult` field.  `HandleConnection` alternates the
 * player's turn (the console front end plays the move on the board, retrying
 * on a taken cell) with `MakeAIMove`, and stops on a terminal result.
 *
 * The moves the player types are the parameter `moves`, in order; running
 * out of them is the player quitting at the prompt.
 */
module LocalLoop {
  import opened Wrappers
  import opened BoardRules
  import opened GameBoard
  import opened Verdict

  datatype Turn = Mine | His

  function Other(t: Turn): Turn
  {
    if t == Mine then His else Mine
  }

  /** n turns that start with `first` and then pass back and forth. */
  function Alternation(first: Turn, n: nat): (r: seq<Turn>)
    requires n >= 1
    ensures |r| == n
  {
    if n == 1 then [first]
    else
      var p := Alternation(first, n - 1);
      p + [Other(p[n - 2])]
  }

  /** Handing the turn over extends an alternation by one. */
  lemma AlternationExtends(first: Turn, n: nat)
    requires n >= 1
    ensures Alternation(first, n) + [Other(Alternation(first, n)[n - 1])] == Alternation(first, n + 1)
  {
  }

  /** An alternation starts with `first`, and no two consecutive turns are the same player's. */
  lemma {:induction false} AlternationAlternates(first: Turn, n: nat)
    requires n >= 1
    ensures Alternation(first, n)[0] == first
    ensures forall k :: 0 <= k < n - 1 ==> Alternation(first, n)[k] != Alternation(first, n)[k + 1]
  {
    if n > 1 {
      AlternationAlternates(first, n - 1);
      var p := Alternation(first, n - 1);
      assert Alternation(first, n) == p + [Other(p[n - 2])];
    }
  }

  datatype LoopOutcome = Finished | Quit | Aborted(message: string)

  /** The message of the `fatal` call when `MakeAIMove` fails. */
  const AbortMessage: string := "Invalid move received from peer: " + NoFreeCellError

  /** The player numbered `firstPlayer` starts: 0 is the local player. */
  function FirstTurn(firstPlayer: int): Turn
  {
    if firstPlayer == 0 then Mine else His
  }

  // ---------------------------------------------------------------------
  // The loop as values
  // ---------------------------------------------------------------------

  /**
   * What one pass of the loop reads and writes: the board, the GameResult
   * field, the turns so far (the last one is the player to move) and the
   * number of typed moves used.
   */
  datatype Position = Position(board: BoardState, gameResult: int, trace: seq<Turn>, next: nat)

  /** A position the loop can be in at the top of a pass. */
  predicate Playable(p: Position, moves: seq<(Coord, Coord)>)
  {
    Consistent(p.board) && p.board.finalResult == NoMove && |p.trace| >= 1 && p.next <= |moves|
  }

  function ToMove(p: Position): Turn
    requires |p.trace| >= 1
  {
    p.trace[|p.trace| - 1]
  }

  /** Moves left to type, cells left to fill, and one more pass while the opponent is to move. */
  function Remaining(p: Position, moves: seq<(Coord, Coord)>): int
    requires |p.trace| >= 1
  {
    |moves| - p.next + p.board.freeCells + (if ToMove(p) == His then 1 else 0)
  }

  /**
   * One pass of the `for` loop of `handleConnection`.  On the player's turn
   * the next typed move is played with the own mark (no move left: the
   * player quits); a taken cell is refused and the player types again.  On
   * the opponent's turn `MakeAIMove` plays the first blank cell, and with
   * none the loop aborts.  A move that ends the game stops the loop with
   * its verdict; otherwise the turn passes to the other player.
   */
  function Pass(p: Position, firstPlayer: int, moves: seq<(Coord, Coord)>): (r: (Position, Option<LoopOutcome>))
    requires Playable(p, moves)
    ensures r.1.None? ==> Playable(r.0, moves) && 0 <= Remaining(r.0, moves) < Remaining(p, moves)
  {
    if ToMove(p) == Mine then
      if p.next == |moves| then (p, Some(Quit))
      else
        var m := ApplyMove(p.board, moves[p.next].0, moves[p.next].1, p.board.ownChar);
        if m.err.Some? then (p.(next := p.next + 1), None)
        else
          var verdict := Verdict.CheckResult(m.result, firstPlayer, p.gameResult);
          var q := Position(m.state, verdict.1, p.trace, p.next + 1);
          if verdict.0 then (q, Some(Finished))
          else
            MoveKeepsConsistent(p.board, moves[p.next].0, moves[p.next].1, p.board.ownChar);
            (q.(trace := p.trace + [His]), None)
    else
      match FirstBlank(p.board.cells)
      case None => (p, Some(Aborted(AbortMessage)))
      case Some(k) =>
        var m := ApplyMove(p.board, k / 3, k % 3, p.board.oppChar);
        var verdict := Verdict.CheckResult(m.result, firstPlayer, p.gameResult);
        var q := Position(m.state, verdict.1, p.trace, p.next);
        if verdict.0 then (q, Some(Finished))
        else
          MoveKeepsConsistent(p.board, k / 3, k % 3, p.board.oppChar);
          (q.(trace := p.trace + [Mine]), None)
  }

  /** Pass on the player's turn with a move left, as the two cases of `makeMove`. */
  lemma PassOnOwnMove(p: Position, firstPlayer: int, moves: seq<(Coord, Coord)>)
    requires Playable(p, moves) && ToMove(p) == Mine && p.next < |moves|
    ensures var m := ApplyMove(p.board, moves[p.next].0, moves[p.next].1, p.board.ownChar);
      var verdict := Verdict.CheckResult(m.result, firstPlayer, p.gameResult);
      Pass(p, firstPlayer, moves) ==
        if m.err.Some? then (p.(next := p.next + 1), None)
        else if verdict.0 then (Position(m.state, verdict.1, p.trace, p.next + 1), Some(Finished))
        else (Position(m.state, verdict.1, p.trace + [His], p.next + 1), None)
  {
  }

  /** Pass on the opponent's turn, as `MakeAIMove` finds a cell or not. */
  lemma PassOnOpponentMove(p: Position, firstPlayer: int, moves: seq<(Coord, Coord)>)
    requires Playable(p, moves) && ToMove(p) == His
    ensures Pass(p, firstPlayer, moves) ==
      match FirstBlank(p.board.cells)
      case None => (p, Some(Aborted(AbortMessage)))
      case Some(k) =>
        var m := ApplyMove(p.board, k / 3, k % 3, p.board.oppChar);
        var verdict := Verdict.CheckResult(m.result, firstPlayer, p.gameResult);
        if verdict.0 then (Position(m.state, verdict.1, p.trace, p.next), Some(Finished))
        else (Position(m.state, verdict.1, p.trace + [Mine], p.next), None)
  {
  }

  /**
   * A pass that does not stop the loop hands the turn to the other player,
   * except after a refused move of the player's: the opponent never moves
   * twice in a row.
   */
  lemma PassHandsOver(p: Position, firstPlayer: int, moves: seq<(Coord, Coord)>)
    requires Playable(p, moves)
    ensures var r := Pass(p, firstPlayer, moves);
      r.0.trace == p.trace || (r.1.None? && r.0.trace == p.trace + [Other(ToMove(p))])
    ensures var r := Pass(p, firstPlayer, moves);
      r.1.None? && ToMove(p) == His ==> r.0.trace == p.trace + [Mine]
  {
    if ToMove(p) == Mine {
      if p.next < |moves| {
        PassOnOwnMove(p, firstPlayer, moves);
      }
    } else {
      PassOnOpponentMove(p, firstPlayer, moves);
    }
  }

  /** The whole loop from `p`: passes until one of them stops it. */
  function Play(p: Position, firstPlayer: int, moves: seq<(Coord, Coord)>): (LoopOutcome, Position)
    requires Playable(p, moves)
    decreases Remaining(p, moves)
  {
    var r := Pass(p, firstPlayer, moves);
    match r.1
    case Some(outcome) => (outcome, r.0)
    case None => Play(r.0, firstPlayer, moves)
  }

  /** The turns recorded by the loop keep alternating, and only grow. */
  lemma {:induction false} PlayAlternates(p: Position, firstPlayer: int, moves: seq<(Coord, Coord)>, first: Turn)
    requires Playable(p, moves) && p.trace == Alternation(first, |p.trace|)
    ensures var t := Play(p, firstPlayer, moves).1.trace;
      |t| >= |p.trace| && t == Alternation(first, |t|)
    decreases Remaining(p, moves)
  {
    var r := Pass(p, firstPlayer, moves);
    PassHandsOver(p, firstPlayer, moves);
    if r.1.None? {
      if r.0.trace != p.trace {
        AlternationExtends(first, |p.trace|);
      }
      PlayAlternates(r.0, firstPlayer, moves, first);
    }
  }

  /**
   * How the loop ends.  The marks never change and the board stays
   * consistent.  Finished: the board records a win or a Draw and GameResult
   * is its verdict.  Quit: on the player's turn, with every typed move used
   * and no result.  Aborted: on the opponent's turn with no blank cell.
   */
  lemma {:induction false} PlayOutcome(p: Position, firstPlayer: int, moves: seq<(Coord, Coord)>)
    requires Playable(p, moves)
    ensures var (outcome, q) := Play(p, firstPlayer, moves);
      && |q.trace| >= 1 && Consistent(q.board)
      && q.board.ownChar == p.board.ownChar && q.board.oppChar == p.board.oppChar
      && (outcome == Finished ==>
            (IsWin(q.board.finalResult) || q.board.finalResult == Draw) &&
            q.gameResult == Verdict.CheckResult(q.board.finalResult, firstPlayer, q.gameResult).1)
      && (outcome == Quit ==> q.board.finalResult == NoMove && ToMove(q) == Mine && q.next == |moves|)
      && (outcome.Aborted? ==> outcome == Aborted(AbortMessage) && q.board.finalResult == NoMove && ToMove(q) == His && q.board.freeCells == 0)
    decreases Remaining(p, moves)
  {
    var r := Pass(p, firstPlayer, moves);
    if r.1.None? {
      PlayOutcome(r.0, firstPlayer, moves);
    } else if ToMove(p) == Mine && p.next < |moves| {
      MoveKeepsConsistent(p.board, moves[p.next].0, moves[p.next].1, p.board.ownChar);
    } else if ToMove(p) == His {
      FirstBlankExistsIffFree(p.board);
      if FirstBlank(p.board.cells).Some? {
        var k := FirstBlank(p.board.cells).value;
        MoveKeepsConsistent(p.board, k / 3, k % 3, p.board.oppChar);
      }
    }
  }

  /**
   * The loop aborts exactly when the opponent is to move on a full board:
   * then `MakeAIMove` finds no cell.  Otherwise every opponent turn comes
   * after a move that left a blank cell, so from a board with a blank cell
   * (the new board among them) the abort is never taken.
   */
  lemma {:induction false} PlayAbortsIff(p: Position, firstPlayer: int, moves: seq<(Coord, Coord)>)
    requires Playable(p, moves)
    ensures Play(p, firstPlayer, moves).0.Aborted? <==> ToMove(p) == His && p.board.freeCells == 0
    decreases Remaining(p, moves)
  {
    var r := Pass(p, firstPlayer, moves);
    FirstBlankExistsIffFree(p.board);
    if r.1.None? {
      PlayAbortsIff(r.0, firstPlayer, moves);
      if ToMove(p) == Mine && r.0.board != p.board {
        // an accepted move that did not end the game was OKMove, which leaves a blank cell
        assert r.0.board.freeCells != 0;
      }
    }
  }

  class Loop {
    var board: Board
    var gameResult: int
    var firstPlayer: int

    ghost predicate Valid()
      reads this, board, board.b
    {
      board.Valid()
    }

    /** `NewLoop` followed by `genFirstPlayer`, whose random bit is the parameter. */
    constructor (firstPlayer: int)
      ensures Valid() && fresh(board) && fresh(board.b)
      ensures board.State() == NewBoardState()
      ensures this.firstPlayer == firstPlayer && gameResult == GameResultDraw
    {
      board := new Board();
      gameResult := GameResultDraw;
      this.firstPlayer := firstPlayer;
    }

    /** `checkResult`, writing the verdict into the `GameResult` field. */
    method CheckResult(result: int) returns (finished: bool)
      modifies this`gameResult
      ensures (finished, gameResult) == Verdict.CheckResult(result, firstPlayer, old(gameResult))
    {
      if result > GameFinished {
        if result == Draw {
          gameResult := GameResultDraw;
        } else if (result == Player1Win && firstPlayer == 0) || (result == Player2Win && firstPlayer == 1) {
          gameResult := GameResultMeWin;
        } else {
          gameResult := GameResultHeWin;
        }
        return true;
      }
      return false;
    }

    /** The loop's view of the object. */
    function At(trace: seq<Turn>, next: nat): Position
      reads this, board, board.b
      requires board.b.Length == 9
    {
      Position(board.State(), gameResult, trace, next)
    }

    /**
     * The MyTurn branch: the front end's `MakeOwnMove`, then `checkResult`
     * on an accepted move.  A move on a taken cell is refused and changes
     * neither the board nor GameResult.
     */
    method PlayerTurn(i: Coord, j: Coord) returns (accepted: bool, finished: bool)
      requires Valid()
      modifies this`gameResult, board, board.b
      ensures Valid() && board.b == old(board.b)
      ensures accepted <==> old(board.Cells())[3 * i + j] == Blank
      ensures var m := ApplyMove(old(board.State()), i, j, old(board.ownChar));
        && board.State() == m.state
        && (accepted ==> (finished, gameResult) == Verdict.CheckResult(m.result, firstPlayer, old(gameResult)))
        && (!accepted ==> !finished && gameResult == old(gameResult))
    {
      var result, err := board.MakeOwnMove(i, j);
      if err.Some? {
        return false, false;
      }
      finished := CheckResult(result);
      accepted := true;
    }

    /**
     * The HisTurn branch: `MakeAIMove`, then `checkResult`.  The opponent's
     * mark goes on the first blank cell; the error, with nothing changed, is
     * the one `MakeAIMove` returns when no cell is blank.
     */
    method OpponentTurn() returns (err: Option<string>, finished: bool)
      requires Valid()
      modifies this`gameResult, board, board.b
      ensures Valid() && board.b == old(board.b)
      ensures err.Some? <==> old(board.freeCells) == 0
      ensures match FirstBlank(old(board.Cells()))
        case None =>
          err == Some(NoFreeCellError) && !finished &&
          board.State() == old(board.State()) && gameResult == old(gameResult)
        case Some(k) =>
          var m := ApplyMove(old(board.State()), k / 3, k % 3, old(board.oppChar));
          err.None? && board.State() == m.state &&
          (finished, gameResult) == Verdict.CheckResult(m.result, firstPlayer, old(gameResult))
    {
      FirstBlankExistsIffFree(board.State());
      var result;
      result, err := board.MakeAIMove();
      if err.Some? {
        return err, false;
      }
      finished := CheckResult(result);
    }

    /**
     * One pass of the `for` loop of `handleConnection`, for the player whose
     * turn is last in `trace`: it does to the object what `Pass` says.
     */
    method Round(trace: seq<Turn>, moves: seq<(Coord, Coord)>, next: nat)
      returns (trace': seq<Turn>, next': nat, exit: Option<LoopOutcome>)
      requires Valid() && Playable(At(trace, next), moves)
      modifies this`gameResult, board, board.b
      ensures Valid() && board.b == old(board.b)
      ensures (At(trace', next'), exit) == Pass(old(At(trace, next)), firstPlayer, moves)
    {
      if trace[|trace| - 1] == Mine {
        trace', next', exit := PlayerRound(trace, moves, next);
      } else {
        trace', next', exit := OpponentRound(trace, moves, next);
      }
    }

    /** Round on the player's turn. */
    method PlayerRound(trace: seq<Turn>, moves: seq<(Coord, Coord)>, next: nat)
      returns (trace': seq<Turn>, next': nat, exit: Option<LoopOutcome>)
      requires Valid() && Playable(At(trace, next), moves) && trace[|trace| - 1] == Mine
      modifies this`gameResult, board, board.b
      ensures Valid() && board.b == old(board.b)
      ensures (At(trace', next'), exit) == Pass(old(At(trace, next)), firstPlayer, moves)
    {
      trace', next', exit := trace, next, None;
      if next == |moves| {
        exit := Some(Quit);
      } else {
        ghost var p := At(trace, next);
        PassOnOwnMove(p, firstPlayer, moves);
        var accepted, finished := PlayerTurn(moves[next].0, moves[next].1);
        next' := next + 1;
        if finished {
          exit := Some(Finished);
        } else if accepted {
          trace' := trace + [His];
        }
      }
    }

    /** Round on the opponent's turn. */
    method OpponentRound(trace: seq<Turn>, moves: seq<(Coord, Coord)>, next: nat)
      returns (trace': seq<Turn>, next': nat, exit: Option<LoopOutcome>)
      requires Valid() && Playable(At(trace, next), moves) && trace[|trace| - 1] == His
      modifies this`gameResult, board, board.b
      ensures Valid() && board.b == old(board.b)
      ensures (At(trace', next'), exit) == Pass(old(At(trace, next)), firstPlayer, moves)
    {
      trace', next', exit := trace, next, None;
      PassOnOpponentMove(At(trace, next), firstPlayer, moves);
      var err, finished := OpponentTurn();
      if err.Some? {
        exit := Some(Aborted("Invalid move received from peer: " + err.value));
      } else if finished {
        exit := Some(Finished);
      } else {
        trace' := trace + [Mine];
      }
    }

    /**
     * `handleConnection`: `SetFirstPlayer`, then passes until one stops the
     * loop.  The outcome, the turns, the board and GameResult are those of
     * `Play` from the board with the first player's marks.  Hence the turns
     * start with the player numbered `firstPlayer` and strictly alternate,
     * a finished game has a final result recorded and GameResult its
     * verdict, the player quits only on the player's turn, and the loop
     * aborts exactly when the opponent starts on a full board.
     */
    method HandleConnection(moves: seq<(Coord, Coord)>) returns (outcome: LoopOutcome, trace: seq<Turn>)
      requires Valid() && board.finalResult == NoMove
      modifies this`gameResult, board, board.b
      ensures Valid() && board.b == old(board.b)
      ensures var start := Position(old(board.State()).(ownChar := Marks(firstPlayer).0, oppChar := Marks(firstPlayer).1),
                                    old(gameResult), [FirstTurn(firstPlayer)], 0);
        var r := Play(start, firstPlayer, moves);
        outcome == r.0 && trace == r.1.trace && board.State() == r.1.board && gameResult == r.1.gameResult
      ensures |trace| >= 1 && trace == Alternation(FirstTurn(firstPlayer), |trace|)
      ensures trace[0] == FirstTurn(firstPlayer)
      ensures forall k :: 0 <= k < |trace| - 1 ==> trace[k] != trace[k + 1]
      ensures (board.ownChar, board.oppChar) == Marks(firstPlayer)
      ensures outcome == Finished ==>
        (IsWin(board.finalResult) || board.finalResult == Draw) &&
        gameResult == Verdict.CheckResult(board.finalResult, firstPlayer, gameResult).1
      ensures outcome == Quit ==> board.finalResult == NoMove && trace[|trace| - 1] == Mine
      ensures outcome.Aborted? <==> firstPlayer != 0 && old(board.freeCells) == 0
    {
      board.SetFirstPlayer(firstPlayer);
      var first := FirstTurn(firstPlayer);
      trace := [first];
      var next: nat := 0;
      ghost var start := At(trace, next);
      PlayAlternates(start, firstPlayer, moves, first);
      PlayOutcome(start, firstPlayer, moves);
      PlayAbortsIff(start, firstPlayer, moves);
      var exit: Option<LoopOutcome> := None;
      while exit.None?
        invariant Valid() && board.b == old(board.b)
        invariant exit.None? ==> Playable(At(trace, next), moves) && Play(At(trace, next), firstPlayer, moves) == Play(start, firstPlayer, moves)
        invariant exit.Some? ==> (exit.value, At(trace, next)) == Play(start, firstPlayer, moves)
        decreases if exit.None? then Remaining(At(trace, next), moves) + 1 else 0
      {
        trace, next, exit := Round(trace, moves, next);
      }
      outcome := exit.value;
      AlternationAlternates(first, |trace|);
    }
  }
}
