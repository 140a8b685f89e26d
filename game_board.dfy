/**
 * The `Board` object of game/board.go: a 3x3 array updated in place, a
 * free-cell counter, the recorded final result and the two marks.  Every
 * method is proved to change the object exactly as the value-level rules in
 * board_rules.dfy say; `Valid()` is the counter invariant.
 */
module GameBoard {
  import opened Wrappers
  import opened BoardRules

  class Board {
    var b: array<int>
    var freeCells: int
    var finalResult: int
    var ownChar: int
    var oppChar: int

    /** The array is 3x3 and the fields satisfy the board invariant. */
    ghost predicate Valid()
      reads this, b
    {
      b.Length == 9 && Consistent(State())
    }

    /** The nine cells in row-major order. */
    function Cells(): Grid
      reads this, b
      requires b.Length == 9
    {
      b[..]
    }

    /** The whole object as a value. */
    function State(): BoardState
      reads this, b
      requires b.Length == 9
    {
      BoardState(Cells(), freeCells, finalResult, ownChar, oppChar)
    }

    /** `NewBoard`: every cell blank, nine free cells, zero result and marks. */
    constructor ()
      ensures Valid() && fresh(b)
      ensures State() == NewBoardState()
    {
      var a := new int[9];
      for i := 0 to 3
        invariant forall k :: 0 <= k < 3 * i ==> a[k] == Blank
      {
        for j := 0 to 3
          invariant forall k :: 0 <= k < 3 * i + j ==> a[k] == Blank
        {
          a[3 * i + j] := Blank;
        }
      }
      assert a[..] == NewBoardState().cells;
      b := a;
      freeCells := 9;
      finalResult, ownChar, oppChar := NoMove, 0, 0;
    }

    // Read-only getters.

    function OwnChar(): int
      reads this
    {
      ownChar
    }

    function OppChar(): int
      reads this
    {
      oppChar
    }

    function At(i: Coord, j: Coord): int
      reads this, b
      requires b.Length == 9
    {
      b[3 * i + j]
    }

    function FinalResult(): int
      reads this
    {
      finalResult
    }

    /** `SetFirstPlayer`: 'X' to whoever starts; the cells and counters are untouched. */
    method SetFirstPlayer(firstPlayer: int)
      requires Valid()
      modifies this`ownChar, this`oppChar
      ensures Valid()
      ensures (ownChar, oppChar) == Marks(firstPlayer)
    {
      if firstPlayer == 0 {
        ownChar, oppChar := Player1Char, Player2Char;
      } else {
        ownChar, oppChar := Player2Char, Player1Char;
      }
    }

    /** `makeMove`: refuses a taken cell, otherwise writes `c` in place and classifies the move. */
    method MakeMove(i: Coord, j: Coord, c: int) returns (result: int, err: Option<string>)
      requires Valid() && c != Blank
      modifies this, b
      ensures Valid() && b == old(b)
      ensures MoveOutcome(State(), result, err) == ApplyMove(old(State()), i, j, c)
    {
      ghost var s := State();
      ghost var m := ApplyMove(s, i, j, c);
      MoveKeepsConsistent(s, i, j, c);
      if b[3 * i + j] == Blank {
        b[3 * i + j] := c;
        freeCells := freeCells - 1;
        var w := CheckWinningCondition(Cells(), i, j);
        if w != 0 {
          finalResult := w;
          assert State() == m.state;
          return w, None;
        } else if freeCells == 0 {
          finalResult := Draw;
          assert State() == m.state;
          return Draw, None;
        }
        assert State() == m.state;
        return OKMove, None;
      }
      return NoMove, Some(CellTakenError);
    }

    method MakeOwnMove(i: Coord, j: Coord) returns (result: int, err: Option<string>)
      requires Valid()
      modifies this, b
      ensures Valid() && b == old(b)
      ensures MoveOutcome(State(), result, err) == ApplyMove(old(State()), i, j, old(ownChar))
    {
      result, err := MakeMove(i, j, ownChar);
    }

    method MakeOppMove(i: Coord, j: Coord) returns (result: int, err: Option<string>)
      requires Valid()
      modifies this, b
      ensures Valid() && b == old(b)
      ensures MoveOutcome(State(), result, err) == ApplyMove(old(State()), i, j, old(oppChar))
    {
      result, err := MakeMove(i, j, oppChar);
    }

    /**
     * `MakeAIMove`: the opponent's mark on the first blank cell in row-major
     * order; an error, and no change, only when no cell is blank.
     */
    method MakeAIMove() returns (result: int, err: Option<string>)
      requires Valid()
      modifies this, b
      ensures Valid() && b == old(b)
      ensures match FirstBlank(old(Cells()))
        case None => result == NoMove && err == Some(NoFreeCellError) && State() == old(State())
        case Some(k) => MoveOutcome(State(), result, err) == ApplyMove(old(State()), k / 3, k % 3, old(oppChar))
    {
      for i := 0 to 3
        invariant unchanged(this) && unchanged(b)
        invariant forall k :: 0 <= k < 3 * i ==> Cells()[k] != Blank
      {
        for j := 0 to 3
          invariant unchanged(this) && unchanged(b)
          invariant forall k :: 0 <= k < 3 * i + j ==> Cells()[k] != Blank
        {
          if b[3 * i + j] == Blank {
            assert FirstBlank(Cells()) == Some(3 * i + j);
            assert (3 * i + j) / 3 == i && (3 * i + j) % 3 == j;
            result, err := MakeMove(i, j, oppChar);
            return;
          }
        }
      }
      result, err := NoMove, Some(NoFreeCellError);
    }
  }
}
