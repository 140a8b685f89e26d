/**
 * The rules engine of game/board.go, stated on values.
 *
 * A board is nine integer cells in row-major order (the Go code keeps a
 * `[3][3]int`); a cell holds the code of a rune: ' ' when free, 'X' or 'O'
 * when taken.  `ApplyMove` is the specification of `makeMove`: the class in
 * game_board.dfy is proved to change its array and fields exactly as
 * `ApplyMove` says, and the lemmas here say what that means for the game.
 */
module BoardRules {
  import opened Wrappers

  const Blank: int := ' ' as int
  const Player1Char: int := 'X' as int
  const Player2Char: int := 'O' as int

  // Move results, in the order of the Go `iota` block.
  const NoMove: int := 0
  const OKMove: int := 1
  const GameFinished: int := 2
  const Player1Win: int := 3
  const Player2Win: int := 4
  const Draw: int := 5

  const CellTakenError: string := "Cell already taken."
  const NoFreeCellError: string := "No free cell found"

  /** The callers' test for "the game is over": a result above GameFinished. */
  predicate IsTerminal(result: int)
  {
    result > GameFinished
  }

  predicate IsWin(result: int)
  {
    result == Player1Win || result == Player2Win
  }

  /** The win a completed line of `c` stands for: 'X' is player 1, anything else player 2. */
  function MapChar(c: int): (r: int)
    ensures IsWin(r) && IsTerminal(r)
    ensures r == Player1Win <==> c == Player1Char
  {
    if c == Player1Char then Player1Win else Player2Win
  }

  type Coord = x: int | 0 <= x < 3

  /** Nine cells, row-major: cell (i, j) is at index 3 * i + j. */
  type Grid = g: seq<int> | |g| == 9 witness [0, 0, 0, 0, 0, 0, 0, 0, 0]

  function Cell(g: Grid, i: Coord, j: Coord): int
  {
    g[3 * i + j]
  }

  // ---------------------------------------------------------------------
  // Lines
  // ---------------------------------------------------------------------

  /** The eight lines of the board. */
  datatype Line = Row(row: Coord) | Column(col: Coord) | Diagonal | AntiDiagonal

  /** The k-th cell of a line, in the order the Go code reads it. */
  function LineCell(l: Line, k: Coord): (Coord, Coord)
  {
    match l
    case Row(r) => (r, k)
    case Column(c) => (k, c)
    case Diagonal => (k, k)
    case AntiDiagonal => (k, 2 - k)
  }

  predicate OnLine(l: Line, i: Coord, j: Coord)
  {
    match l
    case Row(r) => i == r
    case Column(c) => j == c
    case Diagonal => i == j
    case AntiDiagonal => i + j == 2
  }

  function CellAt(g: Grid, p: (Coord, Coord)): int
  {
    Cell(g, p.0, p.1)
  }

  /** All three cells of `l` hold the same non-blank value `c`. */
  predicate Completed(g: Grid, l: Line, c: int)
  {
    c != Blank && CellAt(g, LineCell(l, 0)) == c && CellAt(g, LineCell(l, 1)) == c && CellAt(g, LineCell(l, 2)) == c
  }

  ghost predicate NoCompletedLine(g: Grid)
  {
    forall l: Line, c: int :: !Completed(g, l, c)
  }

  lemma LineCellIsOnLine(l: Line, k: Coord)
    ensures OnLine(l, LineCell(l, k).0, LineCell(l, k).1)
  {
  }

  /** A line that does not pass through (i, j) reads the same before and after a write to (i, j). */
  lemma CompletedAwayFromWrite(g: Grid, l: Line, i: Coord, j: Coord, c: int, x: int)
    requires !OnLine(l, i, j)
    ensures Completed(g[3 * i + j := x], l, c) == Completed(g, l, c)
  {
    LineCellIsOnLine(l, 0);
    LineCellIsOnLine(l, 1);
    LineCellIsOnLine(l, 2);
  }

  // ---------------------------------------------------------------------
  // checkWinningCondition
  // ---------------------------------------------------------------------

  /**
   * The row and the column through the last move, then (only when i + j is
   * even) both diagonals; the first completed one decides the result, 0 if
   * none is completed.
   */
  function CheckWinningCondition(g: Grid, i: Coord, j: Coord): (r: int)
    ensures r == 0 || IsWin(r)
  {
    var h := Cell(g, i, 0);
    if h != Blank && Cell(g, i, 1) == h && Cell(g, i, 2) == h then MapChar(h)
    else
      var v := Cell(g, 0, j);
      if v != Blank && Cell(g, 1, j) == v && Cell(g, 2, j) == v then MapChar(v)
      else if (i + j) % 2 == 1 then 0
      else
        var d := Cell(g, 0, 0);
        if d != Blank && Cell(g, 1, 1) == d && Cell(g, 2, 2) == d then MapChar(d)
        else
          var a := Cell(g, 0, 2);
          if a != Blank && Cell(g, 1, 1) == a && Cell(g, 2, 0) == a then MapChar(a)
          else 0
  }

  /**
   * Soundness: a nonzero result is the win of a completed line, and that
   * line is the row or column through (i, j) or, when i + j is even, a diagonal.
   */
  lemma WinIsSound(g: Grid, i: Coord, j: Coord)
    ensures CheckWinningCondition(g, i, j) != 0 ==>
      exists l: Line, c: int :: Completed(g, l, c) && CheckWinningCondition(g, i, j) == MapChar(c) &&
        (OnLine(l, i, j) || ((i + j) % 2 == 0 && (l == Diagonal || l == AntiDiagonal)))
  {
    var h, v, d, a := Cell(g, i, 0), Cell(g, 0, j), Cell(g, 0, 0), Cell(g, 0, 2);
    if h != Blank && Cell(g, i, 1) == h && Cell(g, i, 2) == h {
      assert Completed(g, Row(i), h);
    } else if v != Blank && Cell(g, 1, j) == v && Cell(g, 2, j) == v {
      assert Completed(g, Column(j), v);
    } else if (i + j) % 2 == 1 {
    } else if d != Blank && Cell(g, 1, 1) == d && Cell(g, 2, 2) == d {
      assert Completed(g, Diagonal, d);
    } else if a != Blank && Cell(g, 1, 1) == a && Cell(g, 2, 0) == a {
      assert Completed(g, AntiDiagonal, a);
    }
  }

  /**
   * Completeness: a completed line through (i, j) is reported, as the win of
   * its own mark.  Cells with odd i + j lie on no diagonal, so skipping the
   * diagonals there loses nothing.
   */
  lemma WinIsComplete(g: Grid, i: Coord, j: Coord, l: Line, c: int)
    requires OnLine(l, i, j) && Completed(g, l, c)
    ensures CheckWinningCondition(g, i, j) == MapChar(c)
  {
    assert Cell(g, i, j) == c by {
      if l.Row? {
        assert LineCell(l, j) == (i, j);
      } else if l.Column? {
        assert LineCell(l, i) == (i, j);
      } else {
        assert LineCell(l, i) == (i, j);
      }
    }
    assert (i + j) % 2 == 1 ==> !OnLine(Diagonal, i, j) && !OnLine(AntiDiagonal, i, j);
  }

  // ---------------------------------------------------------------------
  // Board state and makeMove
  // ---------------------------------------------------------------------

  /** The fields of the Go `Board` struct. */
  datatype BoardState = BoardState(cells: Grid, freeCells: int, finalResult: int, ownChar: int, oppChar: int)

  function BlankCount(s: seq<int>): (n: nat)
    ensures n <= |s|
    ensures n == 0 <==> forall k :: 0 <= k < |s| ==> s[k] != Blank
    ensures n == |s| <==> forall k :: 0 <= k < |s| ==> s[k] == Blank
  {
    if s == [] then 0 else (if s[0] == Blank then 1 else 0) + BlankCount(s[1..])
  }

  /** Writing a mark on a blank cell removes exactly one blank. */
  lemma {:induction false} BlankCountAfterWrite(s: seq<int>, k: nat, c: int)
    requires k < |s| && s[k] == Blank && c != Blank
    ensures BlankCount(s[k := c]) == BlankCount(s) - 1
  {
    if k > 0 {
      BlankCountAfterWrite(s[1..], k - 1, c);
      assert s[k := c][1..] == s[1..][k - 1 := c];
    }
  }

  /** The board invariant: the counter equals the number of blank cells, and neither mark is blank. */
  predicate Consistent(s: BoardState)
  {
    s.freeCells == BlankCount(s.cells) && s.ownChar != Blank && s.oppChar != Blank
  }

  /** The board `NewBoard` returns: nine blank cells, nine free, no result and no marks chosen yet. */
  function NewBoardState(): (s: BoardState)
    ensures Consistent(s) && s.freeCells == 9 && s.finalResult == NoMove
    ensures forall k :: 0 <= k < 9 ==> s.cells[k] == Blank
  {
    BoardState(seq(9, k => Blank), 9, NoMove, 0, 0)
  }

  datatype MoveOutcome = MoveOutcome(state: BoardState, result: int, err: Option<string>)

  /**
   * `makeMove(coords, char)`.  An occupied cell is refused with an error and
   * no change.  Otherwise the mark is written, the counter decremented and
   * the result chosen in priority order: a completed line (recorded in
   * finalResult), else a full board (Draw, recorded), else OKMove.
   */
  function ApplyMove(s: BoardState, i: Coord, j: Coord, c: int): (m: MoveOutcome)
    ensures m.err.Some? <==> Cell(s.cells, i, j) != Blank
    ensures m.err.Some? ==> m.result == NoMove && m.err == Some(CellTakenError) && m.state == s
    ensures m.err.None? ==>
      && m.state.cells == s.cells[3 * i + j := c]
      && m.state.freeCells == s.freeCells - 1
      && m.state.ownChar == s.ownChar && m.state.oppChar == s.oppChar
      && m.result in {OKMove, Player1Win, Player2Win, Draw}
    ensures IsWin(m.result) ==> m.err.None? && m.result == CheckWinningCondition(m.state.cells, i, j) && m.state.finalResult == m.result
    ensures m.result == Draw ==> m.err.None? && CheckWinningCondition(m.state.cells, i, j) == 0 && m.state.freeCells == 0 && m.state.finalResult == Draw
    ensures m.result == OKMove ==> m.err.None? && CheckWinningCondition(m.state.cells, i, j) == 0 && m.state.freeCells != 0 && m.state.finalResult == s.finalResult
  {
    if Cell(s.cells, i, j) == Blank then
      var cells := s.cells[3 * i + j := c];
      var free := s.freeCells - 1;
      var w := CheckWinningCondition(cells, i, j);
      if w != 0 then MoveOutcome(s.(cells := cells, freeCells := free, finalResult := w), w, None)
      else if free == 0 then MoveOutcome(s.(cells := cells, freeCells := free, finalResult := Draw), Draw, None)
      else MoveOutcome(s.(cells := cells, freeCells := free), OKMove, None)
    else
      MoveOutcome(s, NoMove, Some(CellTakenError))
  }

  /** makeMove keeps the counter equal to the number of blank cells. */
  lemma MoveKeepsConsistent(s: BoardState, i: Coord, j: Coord, c: int)
    requires Consistent(s) && c != Blank
    ensures Consistent(ApplyMove(s, i, j, c).state)
  {
    if Cell(s.cells, i, j) == Blank {
      BlankCountAfterWrite(s.cells, 3 * i + j, c);
    }
  }

  /** Only the chosen cell changes; once taken, a cell keeps its mark. */
  lemma MoveWritesOneCell(s: BoardState, i: Coord, j: Coord, c: int, a: Coord, b: Coord)
    requires (a, b) != (i, j) || Cell(s.cells, a, b) != Blank
    ensures Cell(ApplyMove(s, i, j, c).state.cells, a, b) == Cell(s.cells, a, b)
  {
  }

  /**
   * What the result of a legal move means, on a board where no line was
   * completed before: a win exactly when the move completes a line through
   * the played cell, and then it is the mover's win; Draw exactly when no
   * line is completed and no blank is left; OKMove exactly when no line is
   * completed and a blank is left.  So a win on the last cell is a win.
   */
  lemma MoveResultMeaning(s: BoardState, i: Coord, j: Coord, c: int)
    requires Consistent(s) && NoCompletedLine(s.cells)
    requires Cell(s.cells, i, j) == Blank && c != Blank
    ensures var m := ApplyMove(s, i, j, c);
      && (IsWin(m.result) <==> exists l: Line :: OnLine(l, i, j) && Completed(m.state.cells, l, c))
      && (IsWin(m.result) ==> m.result == MapChar(c))
      && (m.result == Draw <==> NoCompletedLine(m.state.cells) && BlankCount(m.state.cells) == 0)
      && (m.result == OKMove <==> NoCompletedLine(m.state.cells) && BlankCount(m.state.cells) > 0)
  {
    var m := ApplyMove(s, i, j, c);
    var g := m.state.cells;
    MoveKeepsConsistent(s, i, j, c);
    assert Cell(g, i, j) == c;
    var w := CheckWinningCondition(g, i, j);
    WinIsSound(g, i, j);
    // Every completed line of the new board passes through (i, j) and is made of c.
    forall l: Line, x: int | Completed(g, l, x)
      ensures OnLine(l, i, j) && x == c && w == MapChar(c)
    {
      if !OnLine(l, i, j) {
        CompletedAwayFromWrite(s.cells, l, i, j, x, c);
        assert false;
      }
      WinIsComplete(g, i, j, l, x);
      LineOnCellHolds(g, l, i, j, x);
    }
    if w != 0 {
      var l: Line, x: int :| Completed(g, l, x) && w == MapChar(x) &&
        (OnLine(l, i, j) || ((i + j) % 2 == 0 && (l == Diagonal || l == AntiDiagonal)));
      assert OnLine(l, i, j) && x == c;
    }
  }

  /** A completed line through (i, j) is made of the value at (i, j). */
  lemma LineOnCellHolds(g: Grid, l: Line, i: Coord, j: Coord, x: int)
    requires OnLine(l, i, j) && Completed(g, l, x)
    ensures Cell(g, i, j) == x
  {
    match l
    case Row(r) => assert LineCell(l, j) == (i, j);
    case Column(col) => assert LineCell(l, i) == (i, j);
    case Diagonal => assert LineCell(l, i) == (i, j);
    case AntiDiagonal => assert LineCell(l, i) == (i, j);
  }

  // ---------------------------------------------------------------------
  // SetFirstPlayer and MakeAIMove
  // ---------------------------------------------------------------------

  /** The (own, opponent) marks `SetFirstPlayer` assigns: 'X' goes to whoever starts. */
  function Marks(firstPlayer: int): (m: (int, int))
    ensures m.0 != m.1 && m.0 != Blank && m.1 != Blank
    ensures m.0 == Player1Char <==> firstPlayer == 0
    ensures {m.0, m.1} == {Player1Char, Player2Char}
  {
    if firstPlayer == 0 then (Player1Char, Player2Char) else (Player2Char, Player1Char)
  }

  /** The first blank cell at index k or later, in row-major order. */
  function FirstBlankFrom(g: Grid, k: nat): (r: Option<nat>)
    requires k <= 9
    ensures r.Some? ==> k <= r.value < 9 && g[r.value] == Blank && forall m :: k <= m < r.value ==> g[m] != Blank
    ensures r.None? ==> forall m :: k <= m < 9 ==> g[m] != Blank
    decreases 9 - k
  {
    if k == 9 then None
    else if g[k] == Blank then Some(k)
    else FirstBlankFrom(g, k + 1)
  }

  /** The cell `MakeAIMove` picks. */
  function FirstBlank(g: Grid): Option<nat>
  {
    FirstBlankFrom(g, 0)
  }

  /** On a consistent board the search fails exactly when the counter is zero. */
  lemma FirstBlankExistsIffFree(s: BoardState)
    requires Consistent(s)
    ensures FirstBlank(s.cells).None? <==> s.freeCells == 0
  {
    if FirstBlank(s.cells).Some? {
      assert s.cells[FirstBlank(s.cells).value] == Blank;
    }
  }
}
