/**
 * The move-text parser of the console front end: `parseLetter`,
 * `parseDigit` and `parseMove` in cl.go (ttt.go holds the same three
 * functions, character for character).  The input is the byte string the
 * user typed; the Go out-pointer writes become returned values.
 */
module MoveParser {
  import opened Wrappers

  type Byte = x: int | 0 <= x < 256

  const Space: Byte := ' ' as int

  /** The two errors `parseMove` can return. */
  datatype ParseError = EmptyMove | InvalidMove

  function ErrorText(e: ParseError): string
  {
    match e
    case EmptyMove => "err: Please make a move."
    case InvalidMove => "err: Invalid move."
  }

  predicate IsLetter(ch: Byte)
  {
    'a' as int <= ch <= 'c' as int
  }

  predicate IsDigit(ch: Byte)
  {
    '1' as int <= ch <= '3' as int
  }

  /** The letter naming a row, and the digit naming a column. */
  function LetterOf(row: int): Byte
    requires 0 <= row < 3
  {
    'a' as int + row
  }

  function DigitOf(col: int): Byte
    requires 0 <= col < 3
  {
    '1' as int + col
  }

  /** `parseLetter`: 'a'..'c' to 0..2, anything else refused. */
  function ParseLetter(ch: Byte): (r: Option<int>)
    ensures r.Some? <==> IsLetter(ch)
    ensures r.Some? ==> 0 <= r.value < 3 && LetterOf(r.value) == ch
  {
    if 'a' as int <= ch <= 'c' as int then Some(ch - 'a' as int) else None
  }

  /** `parseDigit`: '1'..'3' to 0..2, anything else refused. */
  function ParseDigit(ch: Byte): (r: Option<int>)
    ensures r.Some? <==> IsDigit(ch)
    ensures r.Some? ==> 0 <= r.value < 3 && DigitOf(r.value) == ch
  {
    if '1' as int <= ch <= '3' as int then Some(ch - '1' as int) else None
  }

  /** `strings.Replace(move, " ", "", -1)`: the same bytes with every space dropped. */
  function RemoveSpaces(s: seq<Byte>): (r: seq<Byte>)
    ensures Space !in r
    ensures forall x :: x != Space ==> multiset(r)[x] == multiset(s)[x]
  {
    if s == [] then []
    else
      assert s == [s[0]] + s[1..];
      (if s[0] == Space then [] else [s[0]]) + RemoveSpaces(s[1..])
  }

  /** Removing spaces works piecewise, so it keeps the order of the other bytes. */
  lemma {:induction false} RemoveSpacesAppend(a: seq<Byte>, b: seq<Byte>)
    ensures RemoveSpaces(a + b) == RemoveSpaces(a) + RemoveSpaces(b)
  {
    if a != [] {
      RemoveSpacesAppend(a[1..], b);
      assert (a + b)[1..] == a[1..] + b;
    } else {
      assert a + b == b;
    }
  }

  /** A string without spaces is left alone; hence removing spaces twice is removing them once. */
  lemma {:induction false} RemoveSpacesIdentity(s: seq<Byte>)
    requires Space !in s
    ensures RemoveSpaces(s) == s
  {
    if s != [] {
      RemoveSpacesIdentity(s[1..]);
    }
  }

  /** What `parseMove` accepts: after space removal, one letter and one digit, in either order. */
  predicate WellFormed(m: seq<Byte>)
  {
    |m| == 2 && ((IsLetter(m[0]) && IsDigit(m[1])) || (IsDigit(m[0]) && IsLetter(m[1])))
  }

  /**
   * `parseMove`: drop the spaces; nothing left is EmptyMove, any length but
   * two is InvalidMove; otherwise the letter (first or second byte) gives
   * the row and the digit gives the column.
   */
  function ParseMove(move: seq<Byte>): (r: Result<(int, int), ParseError>)
    ensures r == Err(EmptyMove) <==> RemoveSpaces(move) == []
    ensures |RemoveSpaces(move)| != 0 && |RemoveSpaces(move)| != 2 ==> r == Err(InvalidMove)
    ensures r.Ok? <==> WellFormed(RemoveSpaces(move))
    ensures r.Ok? ==> 0 <= r.value.0 < 3 && 0 <= r.value.1 < 3
  {
    var m := RemoveSpaces(move);
    if |m| == 0 then Err(EmptyMove)
    else if |m| != 2 then Err(InvalidMove)
    else
      var row := if ParseLetter(m[0]).Some? then ParseLetter(m[0]) else ParseLetter(m[1]);
      if row.None? then Err(InvalidMove)
      else
        var col := if ParseDigit(m[0]).Some? then ParseDigit(m[0]) else ParseDigit(m[1]);
        if col.None? then Err(InvalidMove)
        else Ok((row.value, col.value))
  }

  /** Both spellings of every square parse back to it: "a1" and "1a" are (0, 0). */
  lemma ParseMoveRoundTrip(row: int, col: int)
    requires 0 <= row < 3 && 0 <= col < 3
    ensures ParseMove([LetterOf(row), DigitOf(col)]) == Ok((row, col))
    ensures ParseMove([DigitOf(col), LetterOf(row)]) == Ok((row, col))
  {
    RemoveSpacesIdentity([LetterOf(row), DigitOf(col)]);
    RemoveSpacesIdentity([DigitOf(col), LetterOf(row)]);
  }

  /** Conversely, a parsed move was one of those two spellings once spaces are removed. */
  lemma ParseMoveInverse(move: seq<Byte>)
    requires ParseMove(move).Ok?
    ensures var (row, col) := ParseMove(move).value;
      RemoveSpaces(move) == [LetterOf(row), DigitOf(col)] || RemoveSpaces(move) == [DigitOf(col), LetterOf(row)]
  {
    var m := RemoveSpaces(move);
    if IsLetter(m[0]) {
      assert m == [LetterOf(ParseLetter(m[0]).value), DigitOf(ParseDigit(m[1]).value)];
    } else {
      assert m == [DigitOf(ParseDigit(m[0]).value), LetterOf(ParseLetter(m[1]).value)];
    }
  }

  /** Spaces anywhere in the input do not change the parse. */
  lemma SpacesAreIgnored(a: seq<Byte>, b: seq<Byte>)
    ensures ParseMove(a + [Space] + b) == ParseMove(a + b)
  {
    RemoveSpacesAppend(a + [Space], b);
    RemoveSpacesAppend(a, [Space]);
    RemoveSpacesAppend(a, b);
    assert RemoveSpaces([Space]) == [];
  }
}
