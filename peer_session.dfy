/**
 * `handleConnection` of game/net/network.go as a transition function.  A
 * session is the loop's `state` variable together with the shared board and
 * the `GameResult` field.  Each step consumes one input and returns the
 * frames the peer sends.  The input is either the local player's move,
 * which the console front end plays on the shared board before handing the
 * turn to the loop, or the next frame from the other peer (None when the
 * read fails).
 *
 * The loop's three states are MyTurn, HisTurn and WaitForResultConfirmation.
 * ConfirmingResult is the wait for a `winstatusConfirmation` inside the
 * HisTurn branch.  Finished and Aborted are the loop's two exits: a return,
 * and a panic that the deferred recover turns into CmdHandleError.  Crashed
 * is the runtime panic that the recover re-raises: the peer's coordinates
 * index the board array out of range.
 *
 * An input of the wrong kind for the phase (a frame while MyTurn waits for
 * the local move, a local move while a frame is awaited) leaves the session
 * unchanged.  The Go loop has no such case: each branch reads from one
 * source only.
 */
module PeerSession {
  import opened Wrappers
  import opened BoardRules
  import opened Codec
  import opened Verdict

  datatype Phase =
    | MyTurn
    | HisTurn
    | ConfirmingResult(result: int)
    | WaitForResultConfirmation
    | Finished
    | Aborted(failure: Failure)
    | Crashed

  datatype Session = Session(phase: Phase, board: BoardState, firstPlayer: int, gameResult: int)

  datatype Input = LocalMove(row: Coord, col: Coord) | Incoming(frame: Option<Frame>)

  datatype StepResult = StepResult(next: Session, sent: seq<Frame>)

  /** The loop's own states; the others are exits or the wait inside HisTurn. */
  predicate Running(p: Phase)
  {
    p.MyTurn? || p.HisTurn? || p.ConfirmingResult? || p.WaitForResultConfirmation?
  }

  /**
   * The session right after `SetFirstPlayer`: player 0 moves first with 'X'.
   * GameResult holds Go's zero value.
   */
  function Start(firstPlayer: int): (s: Session)
    ensures s.phase == (if firstPlayer == 0 then MyTurn else HisTurn)
    ensures s.board.cells == NewBoardState().cells && s.board.freeCells == 9
    ensures (s.board.ownChar, s.board.oppChar) == Marks(firstPlayer)
  {
    var marks := Marks(firstPlayer);
    Session(if firstPlayer == 0 then MyTurn else HisTurn,
            NewBoardState().(ownChar := marks.0, oppChar := marks.1),
            firstPlayer, GameResultDraw)
  }

  function TurnFrame(row: int, col: int, result: int): Frame
  {
    Frame(TagTurn, TurnValue(TurnData(row, col, result)))
  }

  /** One pass of the loop, or one step of the wait inside it. */
  function Step(s: Session, input: Input): (r: StepResult)
    ensures r.next.phase == s.phase ==> r == StepResult(s, [])
    ensures r.next.firstPlayer == s.firstPlayer && |r.sent| <= 1
  {
    match s.phase
    case MyTurn =>
      if !input.LocalMove? then StepResult(s, [])
      else
        var m := ApplyMove(s.board, input.row, input.col, s.board.ownChar);
        if m.err.Some? then StepResult(s, [])  // the front end reports it and asks again
        else
          var (finished, gameResult) := CheckResult(m.result, s.firstPlayer, s.gameResult);
          StepResult(s.(phase := if finished then WaitForResultConfirmation else HisTurn,
                        board := m.state, gameResult := gameResult),
                     [TurnFrame(input.row, input.col, m.result)])
    case HisTurn =>
      if !input.Incoming? then StepResult(s, [])
      else
        (match ExpectMessage(input.frame, TagTurn, TurnKind)
        case Err(e) => StepResult(s.(phase := Aborted(e)), [])
        case Ok(p) =>
          var t := p.turn;
          if !(0 <= t.row < 3 && 0 <= t.col < 3) then StepResult(s.(phase := Crashed), [])
          else
            var m := ApplyMove(s.board, t.row, t.col, s.board.oppChar);
            if m.err.Some? then StepResult(s.(phase := Aborted(InvalidPeerMove)), [])
            else if m.result != t.result then
              StepResult(s.(phase := Aborted(MismatchingTurnResult), board := m.state),
                         [FatalFrame("Mismatching turn result")])
            else
              var (finished, gameResult) := CheckResult(m.result, s.firstPlayer, s.gameResult);
              if finished then
                StepResult(s.(phase := ConfirmingResult(m.result), board := m.state, gameResult := gameResult),
                           [Frame(TagWinStatus, IntValue(m.result))])
              else
                StepResult(s.(phase := MyTurn, board := m.state), []))
    case ConfirmingResult(_) =>
      if !input.Incoming? then StepResult(s, [])
      else
        (match ExpectMessage(input.frame, TagWinStatusConfirm, BoolKind)
        case Err(e) => StepResult(s.(phase := Aborted(e)), [])
        case Ok(p) =>
          if p.b then StepResult(s.(phase := Finished), [])
          else StepResult(s.(phase := Aborted(ResultNotConfirmed)), []))
    case WaitForResultConfirmation =>
      if !input.Incoming? then StepResult(s, [])
      else
        (match ExpectMessage(input.frame, TagWinStatus, IntKind)
        case Err(e) => StepResult(s.(phase := Aborted(e)), [])
        case Ok(p) =>
          if p.n != s.board.finalResult then
            StepResult(s.(phase := Aborted(ResultMismatch)), [Frame(TagWinStatusConfirm, BoolValue(false))])
          else
            StepResult(s.(phase := Finished), [Frame(TagWinStatusConfirm, BoolValue(true))]))
    case _ => StepResult(s, [])
  }

  // ---------------------------------------------------------------------
  // The session invariant
  // ---------------------------------------------------------------------

  /** A final board result: a win or a draw. */
  predicate IsFinalResult(result: int)
  {
    IsWin(result) || result == Draw
  }

  /**
   * The board counters agree with the cells and the marks with the start
   * order; while moves are still being made no line is complete, a cell is
   * free and no result is recorded; once the game ends the recorded result
   * is final and GameResult is its verdict.
   */
  ghost predicate Inv(s: Session)
  {
    && Consistent(s.board)
    && (s.firstPlayer == 0 || s.firstPlayer == 1)
    && (s.board.ownChar, s.board.oppChar) == Marks(s.firstPlayer)
    && ((s.phase.MyTurn? || s.phase.HisTurn?) ==>
          NoCompletedLine(s.board.cells) && s.board.freeCells > 0 && s.board.finalResult == NoMove)
    && ((s.phase.ConfirmingResult? || s.phase.WaitForResultConfirmation?) ==>
          IsFinalResult(s.board.finalResult) &&
          s.gameResult == CheckResult(s.board.finalResult, s.firstPlayer, s.gameResult).1)
    && (s.phase.ConfirmingResult? ==> s.phase.result == s.board.finalResult)
  }

  lemma StartEstablishesInv(firstPlayer: int)
    requires firstPlayer == 0 || firstPlayer == 1
    ensures Inv(Start(firstPlayer))
  {
  }

  /** A legal move on a board in play keeps the invariant's MyTurn/HisTurn part or ends the game. */
  lemma MoveInPlay(b: BoardState, i: Coord, j: Coord, c: int)
    requires Consistent(b) && NoCompletedLine(b.cells) && b.finalResult == NoMove
    requires Cell(b.cells, i, j) == Blank && c != Blank
    ensures var m := ApplyMove(b, i, j, c);
      && Consistent(m.state)
      && (IsTerminal(m.result) ==> IsFinalResult(m.result) && m.state.finalResult == m.result)
      && (!IsTerminal(m.result) ==>
            m.result == OKMove && NoCompletedLine(m.state.cells) && m.state.freeCells > 0 &&
            m.state.finalResult == NoMove)
  {
    var m := ApplyMove(b, i, j, c);
    MoveKeepsConsistent(b, i, j, c);
    MoveResultMeaning(b, i, j, c);
    if m.result == OKMove {
      BlankCountPositive(m.state.cells);
    }
  }

  /** A grid with a blank cell has a positive blank count. */
  lemma BlankCountPositive(g: Grid)
    requires exists k :: 0 <= k < 9 && g[k] == Blank
    ensures BlankCount(g) > 0
  {
  }

  /** Every step keeps the invariant. */
  lemma StepKeepsInv(s: Session, input: Input)
    requires Inv(s)
    ensures Inv(Step(s, input).next)
  {
    match s.phase
    case MyTurn => MyTurnKeepsInv(s, input);
    case HisTurn => HisTurnKeepsInv(s, input);
    case _ =>
  }

  lemma MyTurnKeepsInv(s: Session, input: Input)
    requires Inv(s) && s.phase == MyTurn
    ensures Inv(Step(s, input).next)
  {
    if input.LocalMove? && Cell(s.board.cells, input.row, input.col) == Blank {
      MoveInPlay(s.board, input.row, input.col, s.board.ownChar);
    }
  }

  lemma HisTurnKeepsInv(s: Session, input: Input)
    requires Inv(s) && s.phase == HisTurn
    ensures Inv(Step(s, input).next)
  {
    if input.Incoming? && ExpectMessage(input.frame, TagTurn, TurnKind).Ok? {
      var t := input.frame.value.payload.turn;
      if 0 <= t.row < 3 && 0 <= t.col < 3 && Cell(s.board.cells, t.row, t.col) == Blank {
        MoveInPlay(s.board, t.row, t.col, s.board.oppChar);
      }
    }
  }

  // ---------------------------------------------------------------------
  // What the transitions promise
  // ---------------------------------------------------------------------

  /**
   * The start order fixes the first state, and a legal local move sends the
   * turn with its result and waits for confirmation exactly when the result
   * is terminal.
   */
  lemma MyTurnSendsTurn(s: Session, i: Coord, j: Coord)
    requires Inv(s) && s.phase == MyTurn && Cell(s.board.cells, i, j) == Blank
    ensures var m := ApplyMove(s.board, i, j, s.board.ownChar);
      var r := Step(s, LocalMove(i, j));
      && r.sent == [TurnFrame(i, j, m.result)]
      && r.next.board == m.state
      && (r.next.phase == WaitForResultConfirmation <==> IsTerminal(m.result))
      && (r.next.phase == HisTurn <==> m.result == OKMove)
  {
    MoveInPlay(s.board, i, j, s.board.ownChar);
  }

  /**
   * HisTurn hands the turn back only for a turn message whose move is legal,
   * whose claimed result is the one recomputed here and is not terminal.  A
   * mismatching claim therefore never reaches MyTurn.
   */
  lemma HisTurnReturnsOnlyOnAgreement(s: Session, input: Input)
    requires Inv(s) && s.phase == HisTurn
    requires Step(s, input).next.phase == MyTurn
    ensures input.Incoming? && input.frame.Some? && input.frame.value.tag == TagTurn
    ensures input.frame.value.payload.TurnValue?
    ensures var t := input.frame.value.payload.turn;
      && 0 <= t.row < 3 && 0 <= t.col < 3
      && Cell(s.board.cells, t.row, t.col) == Blank
      && t.result == ApplyMove(s.board, t.row, t.col, s.board.oppChar).result
      && t.result == OKMove
  {
    var t := input.frame.value.payload.turn;
    MoveInPlay(s.board, t.row, t.col, s.board.oppChar);
  }

  /** A claimed result that differs from the recomputed one aborts with a fatal message. */
  lemma MismatchAborts(s: Session, row: Coord, col: Coord, claimed: int)
    requires s.phase == HisTurn && Cell(s.board.cells, row, col) == Blank
    requires claimed != ApplyMove(s.board, row, col, s.board.oppChar).result
    ensures var r := Step(s, Incoming(Some(TurnFrame(row, col, claimed))));
      r.next.phase == Aborted(MismatchingTurnResult) && r.sent == [FatalFrame("Mismatching turn result")]
  {
  }

  /**
   * After a terminal move of the peer's, the game finishes exactly on a
   * `true` confirmation; any other input the session reads aborts it.
   */
  lemma ConfirmationDecides(s: Session, frame: Option<Frame>)
    requires s.phase.ConfirmingResult?
    ensures var r := Step(s, Incoming(frame));
      && (r.next.phase == Finished <==> frame == Some(Frame(TagWinStatusConfirm, BoolValue(true))))
      && (r.next.phase != Finished ==> r.next.phase.Aborted?)
      && r.sent == []
  {
  }

  /**
   * After a terminal move of my own, the session replies `true` exactly when
   * the peer's result equals the recorded one, and stops either way.
   */
  lemma WaitRepliesAndStops(s: Session, result: int)
    requires s.phase == WaitForResultConfirmation
    ensures var r := Step(s, Incoming(Some(Frame(TagWinStatus, IntValue(result)))));
      && r.sent == [Frame(TagWinStatusConfirm, BoolValue(result == s.board.finalResult))]
      && (r.next.phase == Finished <==> result == s.board.finalResult)
      && (r.next.phase != Finished ==> r.next.phase == Aborted(ResultMismatch))
  {
  }

  /** Once the loop has returned or panicked, nothing more happens. */
  lemma ExitsAreFinal(s: Session, input: Input)
    requires !Running(s.phase)
    ensures Step(s, input) == StepResult(s, [])
  {
  }

  // ---------------------------------------------------------------------
  // Two honest peers
  // ---------------------------------------------------------------------

  /** The two peers hold the same board, from opposite sides, and it is `a`'s move. */
  ghost predicate InStep(a: Session, b: Session)
  {
    && Inv(a) && Inv(b)
    && a.phase == MyTurn && b.phase == HisTurn
    && b.firstPlayer == 1 - a.firstPlayer
    && a.board.cells == b.board.cells
    && a.board.freeCells == b.board.freeCells
  }

  /**
   * The turn frame `a` sends makes `b` play the same move: both boards stay
   * equal, and either the turn passes to `b` or both wait on the result,
   * `a` for the winstatus message that `b` sends, `b` for its confirmation.
   */
  lemma HonestTurn(a: Session, b: Session, i: Coord, j: Coord)
    requires InStep(a, b) && Cell(a.board.cells, i, j) == Blank
    ensures var ra := Step(a, LocalMove(i, j));
      var rb := Step(b, Incoming(Some(ra.sent[0])));
      && |ra.sent| == 1
      && rb.next.board == ra.next.board.(ownChar := b.board.ownChar, oppChar := b.board.oppChar)
      && (ra.next.phase == HisTurn <==> rb.next.phase == MyTurn)
      && (ra.next.phase == HisTurn ==> InStep(rb.next, ra.next))
      && (ra.next.phase == WaitForResultConfirmation <==> rb.next.phase.ConfirmingResult?)
      && (ra.next.phase == WaitForResultConfirmation ==>
            rb.sent == [Frame(TagWinStatus, IntValue(ra.next.board.finalResult))])
  {
    assert b.board.oppChar == a.board.ownChar;
    var ma := ApplyMove(a.board, i, j, a.board.ownChar);
    var mb := ApplyMove(b.board, i, j, b.board.oppChar);
    MoveInPlay(a.board, i, j, a.board.ownChar);
    MoveInPlay(b.board, i, j, b.board.oppChar);
    assert mb.result == ma.result;
    var ra := Step(a, LocalMove(i, j));
    var rb := Step(b, Incoming(Some(ra.sent[0])));
    if ra.next.phase == HisTurn {
      StepKeepsInv(a, LocalMove(i, j));
      StepKeepsInv(b, Incoming(Some(ra.sent[0])));
    }
  }

  /**
   * The end of an honest game: `a` receives the result `b` reached, replies
   * `true`, and both finish with opposite verdicts (or both a draw).
   */
  lemma HonestConfirmation(a: Session, b: Session)
    requires Inv(a) && Inv(b)
    requires a.phase == WaitForResultConfirmation && b.phase.ConfirmingResult?
    requires b.firstPlayer == 1 - a.firstPlayer
    requires b.board.finalResult == a.board.finalResult
    ensures var ra := Step(a, Incoming(Some(Frame(TagWinStatus, IntValue(b.phase.result)))));
      var rb := Step(b, Incoming(Some(ra.sent[0])));
      && ra.sent == [Frame(TagWinStatusConfirm, BoolValue(true))]
      && ra.next.phase == Finished && rb.next.phase == Finished
      && (a.board.finalResult == Draw ==> ra.next.gameResult == rb.next.gameResult == GameResultDraw)
      && (a.board.finalResult != Draw ==>
            {ra.next.gameResult, rb.next.gameResult} == {GameResultMeWin, GameResultHeWin})
  {
    VerdictsComplement(a.board.finalResult, a.firstPlayer, a.gameResult, b.gameResult);
  }
}
