/**
 * The older rules engine in board.go.  Its `mapChar` and
 * `checkWinningCondition` are the same code as in game/board.go, so this
 * module reuses `MapChar` and `CheckWinningCondition` from BoardRules.  Its
 * `makeMove` differs in one place: a Draw is returned but not recorded in
 * `finalResult`.
 */
module LegacyBoard {
  import opened Wrappers
  import opened BoardRules

  /**
   * board.go's `makeMove`.  It agrees with game/board.go's version on every
   * result and every field except one: after a Draw, finalResult keeps its
   * old value.
   */
  function LegacyApplyMove(s: BoardState, i: Coord, j: Coord, c: int): (m: MoveOutcome)
    ensures m.result == ApplyMove(s, i, j, c).result && m.err == ApplyMove(s, i, j, c).err
    ensures m.result != Draw ==> m == ApplyMove(s, i, j, c)
    ensures m.result == Draw ==> m.state == ApplyMove(s, i, j, c).state.(finalResult := s.finalResult)
  {
    if Cell(s.cells, i, j) == Blank then
      var cells := s.cells[3 * i + j := c];
      var free := s.freeCells - 1;
      var w := CheckWinningCondition(cells, i, j);
      if w != 0 then MoveOutcome(s.(cells := cells, freeCells := free, finalResult := w), w, None)
      else if free == 0 then MoveOutcome(s.(cells := cells, freeCells := free), Draw, None)
      else MoveOutcome(s.(cells := cells, freeCells := free), OKMove, None)
    else
      MoveOutcome(s, NoMove, Some(CellTakenError))
  }

  /** A drawn game leaves `finalResult` at its initial NoMove in this version. */
  lemma DrawIsNotRecorded(s: BoardState, i: Coord, j: Coord, c: int)
    requires Consistent(s) && NoCompletedLine(s.cells) && s.finalResult == NoMove
    requires Cell(s.cells, i, j) == Blank && c != Blank && s.freeCells == 1
    requires CheckWinningCondition(s.cells[3 * i + j := c], i, j) == 0
    ensures LegacyApplyMove(s, i, j, c).result == Draw
    ensures LegacyApplyMove(s, i, j, c).state.finalResult == NoMove
    ensures ApplyMove(s, i, j, c).state.finalResult == Draw
  {
  }

  class Board {
    var b: array<int>
    var freeCells: int
    var finalResult: int
    var ownChar: int
    var oppChar: int

    ghost predicate Valid()
      reads this, b
    {
      b.Length == 9 && Consistent(State())
    }

    function State(): BoardState
      reads this, b
      requires b.Length == 9
    {
      BoardState(b[..], freeCells, finalResult, ownChar, oppChar)
    }

    /** `NewBoard`: nine blank cells and nine free cells. */
    constructor ()
      ensures Valid() && fresh(b)
      ensures State() == NewBoardState()
    {
      var a := new int[9];
      for i := 0 to 3
        invariant forall k :: 0 <= k < 3 * i ==> a[k] == Blank
      {
        for j := 0 to 3
          invariant forall k :: 0 <= k < 3 * i + j ==> a[k] == Blank
        {
          a[3 * i + j] := Blank;
        }
      }
      assert a[..] == NewBoardState().cells;
      b := a;
      freeCells := 9;
      finalResult, ownChar, oppChar := NoMove, 0, 0;
    }

    /** board.go's `makeMove`: as game/board.go's, except that Draw is not recorded. */
    method MakeMove(i: Coord, j: Coord, c: int) returns (result: int, err: Option<string>)
      requires Valid() && c != Blank
      modifies this, b
      ensures Valid() && b == old(b)
      ensures MoveOutcome(State(), result, err) == LegacyApplyMove(old(State()), i, j, c)
    {
      ghost var s := State();
      MoveKeepsConsistent(s, i, j, c);
      if b[3 * i + j] == Blank {
        b[3 * i + j] := c;
        freeCells := freeCells - 1;
        var w := CheckWinningCondition(b[..], i, j);
        if w != 0 {
          finalResult := w;
          return w, None;
        } else if freeCells == 0 {
          return Draw, None;
        }
        return OKMove, None;
      }
      return NoMove, Some(CellTakenError);
    }
  }
}
