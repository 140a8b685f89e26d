/**
 * `checkResult`, the mapping from a board result to the local player's
 * verdict.  game/net/network.go and game/local/loop.go hold the same code;
 * both session models use this one definition.
 */
module Verdict {
  import opened BoardRules

  const GameResultDraw: int := 0
  const GameResultMeWin: int := 1
  const GameResultHeWin: int := 2

  /**
   * Returns (finished, the new GameResult field).  A non-terminal result
   * leaves the field alone; Draw is a draw; a win is mine when it is player
   * 1's and I started (firstPlayer 0) or player 2's and I did not
   * (firstPlayer 1); every other terminal result is the opponent's.
   */
  function CheckResult(result: int, firstPlayer: int, gameResult: int): (r: (bool, int))
    ensures r.0 <==> IsTerminal(result)
    ensures !r.0 ==> r.1 == gameResult
    ensures r.0 ==> r.1 in {GameResultDraw, GameResultMeWin, GameResultHeWin}
    ensures r.0 ==> (r.1 == GameResultDraw <==> result == Draw)
    ensures r.0 ==> (r.1 == GameResultMeWin <==> (result == Player1Win && firstPlayer == 0) || (result == Player2Win && firstPlayer == 1))
  {
    if result > GameFinished then
      if result == Draw then (true, GameResultDraw)
      else if (result == Player1Win && firstPlayer == 0) || (result == Player2Win && firstPlayer == 1) then (true, GameResultMeWin)
      else (true, GameResultHeWin)
    else (false, gameResult)
  }

  /**
   * Together with `SetFirstPlayer`: a win is mine exactly when it is the win
   * of my own mark.
   */
  lemma MeWinIffOwnMark(result: int, firstPlayer: int, gameResult: int)
    requires firstPlayer == 0 || firstPlayer == 1
    requires IsWin(result)
    ensures CheckResult(result, firstPlayer, gameResult).1 == GameResultMeWin <==> result == MapChar(Marks(firstPlayer).0)
  {
  }

  /**
   * Two peers that started in opposite order and see the same final board
   * result reach opposite verdicts: both Draw, or one MeWin and one HeWin.
   */
  lemma VerdictsComplement(result: int, firstPlayer: int, g1: int, g2: int)
    requires firstPlayer == 0 || firstPlayer == 1
    requires IsWin(result) || result == Draw
    ensures var mine := CheckResult(result, firstPlayer, g1).1;
      var theirs := CheckResult(result, 1 - firstPlayer, g2).1;
      (result == Draw ==> mine == theirs == GameResultDraw) &&
      (result != Draw ==> {mine, theirs} == {GameResultMeWin, GameResultHeWin})
  {
  }
}
