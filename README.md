# Tic-tac-toe between two peers, modelled in Dafny

This project models tictacgoe, a two-player tic-tac-toe game in Go. Two
processes connect over TCP with no server between them. They agree on who
moves first, exchange moves, and each one checks the other's moves against
its own copy of the rules. At the end they confirm the result with each
other. The model covers the following parts.

- **The rules engine** (game/board.go). A `Board` holds a 3x3 grid updated
  in place, a free-cell counter, the recorded final result and the two marks.
  - `makeMove` refuses a taken cell. Otherwise it writes the mark, decrements
    the counter and classifies the move, in priority order: a completed line
    through the cell wins, else a full board is a Draw, else OKMove.
  - `MakeAIMove` plays the first blank cell in row-major order.
  - board_rules.dfy holds the rules as values (`ApplyMove`,
    `CheckWinningCondition`) and the lemmas about them. game_board.dfy is the
    `Board` class, whose methods are proved to change the object exactly as
    `ApplyMove` says.
- **The older rules engine** (board.go). It is the same, except that a Draw
  is returned but not recorded in `finalResult` (legacy_board.dfy). Its
  `checkWinningCondition` (board.go:50-82) is the same code as game/board.go's,
  so BoardRules.CheckWinningCondition and its lemmas cover both.
- **The move parser** of the console front end (`parseLetter`, `parseDigit`
  and `parseMove` in cl.go; ttt.go:27-65 holds the same code, modelled once).
  It drops spaces and
  reads `a1` or `1a` as (row 0, column 0). It fails with one of two errors.
- **The message layer** (game/net/network.go, codec.dfy).
  - A frame is `<tag>;<payload>`. `receiveMessage` reads bytes up to the first
    `;`. `expectMessage` aborts on a `fatal` tag or any unexpected tag.
- **Choosing who starts** (`negotiateTurn`, `validateTurn`, `abs` and
  `invertPlayer`; arbitration.dfy).
  - The connecting peer sends its clock reading. The listener refuses a
    reading more than one second off its own clock.
  - Both peers seed the same generator with the reading and draw one bit. The
    listener keeps the bit and the connector inverts it.
- **The networked session** (`handleConnection` and `checkResult`;
  verdict.dfy and peer_session.dfy). It is a transition function over the
  states MyTurn, HisTurn and WaitForResultConfirmation, plus the loop's exits.
  - Each step consumes the local player's move or the peer's next frame and
    returns the frames sent.
  - The peer's move is replayed on the local board, and its claimed result is
    checked against the recomputed one.
  - A terminal result is confirmed with `winstatus` / `winstatusConfirmation`.
- **The local game against the built-in opponent** (game/local/loop.go,
  local_loop.dfy). A `Loop` object alternates the player's move with
  `MakeAIMove` and stops on a terminal result. `Play` is the loop on values;
  `HandleConnection` is proved to do what it says. It is stated for any
  board without a recorded result; the source starts from a new board,
  where the abort is never taken.
- **The early start-order helpers** (`genNums` and `getFirstPlayer` in the
  root network.go; early_arbitration.dfy).

Representation choices:
- The 3x3 Go array is a nine-cell array in row-major order: cell (i, j) is
  index 3*i+j.
- Characters and results are the Go integer values: `' '`, `'X'`, `'O'`, and
  NoMove..Draw = 0..5.
- An abort (a panic that `handleConnection` recovers) is a `Failure` value. The
  runtime panic that the recover re-raises is the `Crashed` phase: the peer's
  coordinates fall outside 0..2.
- Clocks and random draws are parameters. The draw is an arbitrary function
  from seed to bit, shared by both peers.

Two details of the code a reader may not expect:
- In the networked game, the console front end itself plays the local move on
  the shared board (cl.go:162-168). The session only forwards the turn it is
  handed, and does not check it.
- A `fatal` frame is sent only for a bad timestamp, a mismatching first
  player and a mismatching turn result. An unexpected tag and an illegal peer
  move abort silently. A result mismatch answers `false` and then aborts.

## Model

| member | source | states |
|---|---|---|
| BoardRules.MapChar | game/board.go:24-29 | 'X' maps to Player1Win and every other value to Player2Win; the result is always a terminal win |
| BoardRules.CheckWinningCondition | game/board.go:78-110 | the result is 0 or a win |
| BoardRules.WinIsSound | game/board.go:78-110 | a nonzero result means some line holds three equal non-blank values c, and the result is MapChar(c); the line passes through (i, j), or it is a diagonal and i+j is even |
| BoardRules.WinIsComplete | game/board.go:83-108 | every line through (i, j) that holds three equal non-blank values c is found, and the result is MapChar(c); cells with odd i+j lie on no diagonal |
| BoardRules.NewBoardState | game/board.go:39-48 | all nine cells blank, freeCells 9, no result; the counter equals the number of blanks |
| BoardRules.BlankCountAfterWrite | game/board.go:121-124 | writing a mark on a blank cell removes exactly one blank |
| BoardRules.ApplyMove | game/board.go:120-135 | a taken cell is refused with "Cell already taken.", result NoMove and no change; otherwise only that cell is written, freeCells drops by one, and the result is a win (recorded) if the move completes a line, else Draw (recorded) at zero free cells, else OKMove (nothing recorded) |
| BoardRules.MoveKeepsConsistent | game/board.go:121-124 | makeMove keeps freeCells equal to the number of blank cells |
| BoardRules.MoveWritesOneCell | game/board.go:121-123 | no cell other than the played one changes, and a taken cell keeps its mark |
| BoardRules.MoveResultMeaning | game/board.go:125-132 | on a board with no completed line: a win iff the move completes a line through (i, j), and then it is the mover's win; Draw iff no line is complete and no blank is left; OKMove iff no line is complete and a blank is left; so a win on the last cell is a win |
| BoardRules.Marks | game/board.go:70-76 | 'X' goes to firstPlayer 0 and 'O' otherwise; the two marks are distinct, non-blank and are exactly {'X', 'O'} |
| BoardRules.FirstBlankFrom | game/board.go:139-145 | the row-major search returns the least blank index at or after k, or nothing when all later cells are taken |
| BoardRules.FirstBlankExistsIffFree | game/board.go:138-147 | on a consistent board the search fails exactly when freeCells is 0 |
| GameBoard.Board.constructor | game/board.go:39-48 | the nested loops leave nine blank cells, freeCells 9, no result |
| GameBoard.Board.SetFirstPlayer | game/board.go:70-76 | the marks become Marks(firstPlayer); cells and counters are untouched |
| GameBoard.Board.MakeMove | game/board.go:120-135 | the in-place update yields exactly ApplyMove's new state, result and error, and keeps the counter invariant |
| GameBoard.Board.MakeOwnMove | game/board.go:112-114 | makeMove with the own mark |
| GameBoard.Board.MakeOppMove | game/board.go:116-118 | makeMove with the opponent's mark |
| GameBoard.Board.MakeAIMove | game/board.go:138-147 | the opponent's mark is played on the first blank cell in row-major order; "No free cell found", NoMove and no change only when no cell is blank |
| LegacyBoard.LegacyApplyMove | board.go:84-98 | the same result and error as game/board.go's makeMove and the same state, except that after a Draw finalResult keeps its old value |
| LegacyBoard.DrawIsNotRecorded | board.go:92-93 | filling the last cell without a win returns Draw and leaves finalResult at NoMove, where game/board.go records Draw |
| LegacyBoard.Board.constructor | board.go:39-48 | nine blank cells, freeCells 9 |
| LegacyBoard.Board.MakeMove | board.go:84-98 | the in-place update yields exactly LegacyApplyMove's state, result and error |
| MoveParser.ParseLetter | cl.go:33-39 | succeeds exactly on 'a'..'c', and the row r it returns is in 0..2 with letter(r) the input |
| MoveParser.ParseDigit | cl.go:42-48 | succeeds exactly on '1'..'3', and the column c it returns is in 0..2 with digit(c) the input |
| MoveParser.RemoveSpaces | cl.go:54 | no space is left, and every other byte occurs as often as before |
| MoveParser.RemoveSpacesAppend | cl.go:54 | space removal distributes over concatenation, so the other bytes keep their order |
| MoveParser.RemoveSpacesIdentity | cl.go:54 | a string without spaces is unchanged, so removing spaces is idempotent |
| MoveParser.ParseMove | cl.go:51-73 | "Please make a move." iff nothing is left after space removal; "Invalid move." for any other length than 2; success iff one byte is a letter and the other a digit; coordinates in 0..2 |
| MoveParser.ParseMoveRoundTrip | cl.go:62-72 | letter(r)digit(c) and digit(c)letter(r) both parse to (r, c) |
| MoveParser.ParseMoveInverse | cl.go:62-72 | a successful parse of m means m without spaces is letter(r)digit(c) or digit(c)letter(r) |
| MoveParser.SpacesAreIgnored | cl.go:54 | inserting a space anywhere does not change the parse |
| Verdict.CheckResult | game/net/network.go:168-181 | finished iff the result exceeds GameFinished; if not finished GameResult is unchanged; Draw gives GameResultDraw; Player1Win with firstPlayer 0 or Player2Win with firstPlayer 1 gives MeWin; any other terminal result gives HeWin |
| Verdict.MeWinIffOwnMark | game/net/network.go:170-178 | with the marks SetFirstPlayer assigns, a win is MeWin iff it is MapChar of the own mark |
| Verdict.VerdictsComplement | game/net/network.go:168-181 | peers with opposite firstPlayer that see the same final result both see a draw, or one sees MeWin and the other HeWin |
| Codec.Serialize | game/net/network.go:409-421 | the frame is the tag, then one ';', then the payload |
| Codec.ReadTag | game/net/network.go:284-302 | a tag is found iff the stream holds a ';'; the stream is then tag + ';' + rest, and the tag has no ';' |
| Codec.ReadTagOfSplit | game/net/network.go:284-302 | for a tag without ';', the tag read from tag + ';' + rest is that tag, with rest left over |
| Codec.FrameRoundTrip | game/net/network.go:409-421 | reading a serialized frame gives back its tag and payload when the tag has no ';' |
| Codec.DeclaredTagsRoundTrip | game/net/network.go:47-54 | all six declared tags round-trip through a frame |
| Codec.ReceiveMessage | game/net/network.go:284-302 | the byte-by-byte loop returns exactly ReadTag's tag and remaining stream, and a read error when the stream ends first |
| Codec.ExpectMessage | game/net/network.go:304-327 | accepts iff a frame arrived with the expected non-"fatal" tag and a payload of the expected shape; a read failure, a "fatal" tag and any other tag each abort |
| Arbitration.InvertPlayer | game/net/network.go:384-386 | maps 0 and 1 to each other |
| Arbitration.InvertPlayerInvolution | game/net/network.go:384-386 | inverting twice is the identity |
| Arbitration.Abs | game/net/network.go:375-380 | non-negative, and equal to x or -x |
| Arbitration.ClockSkewTooLarge | game/net/network.go:355-358 | refused iff the timestamp is more than one second before or after the local clock |
| Arbitration.Abs64 | game/net/network.go:375-380 | in int64, abs agrees with the exact value except at the least int64, which it returns unchanged |
| Arbitration.ClockSkewTooLargeAsWritten | game/net/network.go:355-358 | the int64 test refuses iff the wrapped difference is not the least int64 and its magnitude exceeds one |
| Arbitration.AsWrittenAgreesWithoutOverflow | game/net/network.go:355-358 | when mytime-timestamp neither overflows nor is the least int64, the int64 test is the exact test |
| Arbitration.AsWrittenAcceptsDistantTimestamp | game/net/network.go:355-358 | the int64 test accepts a timestamp 2^63 seconds before the clock, which the exact test refuses |
| Arbitration.ValidateTurn | game/net/network.go:351-371 | the listener settles only after a close timestamp and a firstPlayer frame echoing draw(timestamp), on that bit, having sent exactly that one firstPlayer frame |
| Arbitration.NegotiateTurn | game/net/network.go:331-347 | the connector first sends its clock; it settles iff the first frame received claims its own draw(now), and then on the inverse bit, echoing the claim |
| Arbitration.SkewIsRefusedFirst | game/net/network.go:351-362 | BadTimestamp iff the first frame is a timestamp too far off; then only the fatal frame is sent; any firstPlayer frame sent implies a close timestamp |
| Arbitration.ListenerAgreesOnlyOnEcho | game/net/network.go:351-371 | the listener settles only on draw(timestamp) for a close timestamp, and only when the connector echoes that bit |
| Arbitration.ConnectorRefusesWrongClaim | game/net/network.go:331-347 | a claimed bit other than the connector's own draw aborts with a fatal "Mismatching first player" frame |
| Arbitration.HonestArbitration | game/net/network.go:331-371 | with clocks at most a second apart, each peer reads what the other sends; the listener gets the bit, the connector its inverse, so exactly one starts |
| PeerSession.Start | game/net/network.go:198-205 | MyTurn iff firstPlayer is 0, with a new board and the marks of SetFirstPlayer |
| PeerSession.StartEstablishesInv | game/net/network.go:198-205 | the session invariant holds at the start |
| PeerSession.Step | game/net/network.go:207-272 | a step either changes nothing and sends nothing, or moves the session to another phase; the start order never changes; at most one frame is sent per step |
| PeerSession.StepKeepsInv | game/net/network.go:207-272 | every step keeps the invariant: consistent counters, fixed marks; in MyTurn/HisTurn no completed line, a free cell and no result; while confirming, a final result and GameResult its verdict |
| PeerSession.MyTurnKeepsInv | game/net/network.go:209-222 | the MyTurn branch keeps the invariant |
| PeerSession.HisTurnKeepsInv | game/net/network.go:224-257 | the HisTurn branch keeps the invariant |
| PeerSession.MyTurnSendsTurn | game/net/network.go:209-222 | a legal local move sends the turn with its result; the session waits for confirmation iff the result is terminal, and passes to HisTurn iff it is OKMove |
| PeerSession.HisTurnReturnsOnlyOnAgreement | game/net/network.go:224-257 | HisTurn reaches MyTurn only on a turn frame with in-range coordinates, a blank cell, and a claimed result equal to the recomputed one, which is OKMove |
| PeerSession.MismatchAborts | game/net/network.go:236-239 | a claimed result that differs from the recomputed one aborts with a fatal "Mismatching turn result" frame |
| PeerSession.ConfirmationDecides | game/net/network.go:241-255 | after the peer's terminal move, the session finishes iff the confirmation is `true`, and aborts otherwise |
| PeerSession.WaitRepliesAndStops | game/net/network.go:259-270 | after a terminal move of its own, the session replies `true` iff the peer's result equals FinalResult, then finishes or aborts |
| PeerSession.ExitsAreFinal | game/net/network.go:185-196 | once the loop has returned or panicked, no input changes anything |
| PeerSession.HonestTurn | game/net/network.go:209-257 | the turn one peer sends makes the other play the same move: the boards stay equal, and the turn passes over or both wait on the result, the receiver sending winstatus |
| PeerSession.HonestConfirmation | game/net/network.go:241-270 | the winstatus exchange of two honest peers ends with both finished and with opposite verdicts, or both a draw |
| LocalLoop.Loop.constructor | game/local/loop.go:57-63 | a fresh board, GameResult zero, and the drawn first player |
| LocalLoop.Loop.CheckResult | game/local/loop.go:129-142 | sets GameResult and returns finished exactly as Verdict.CheckResult |
| LocalLoop.Pass | game/local/loop.go:169-200 | a pass that does not stop the loop leaves a position the loop can go on from (consistent board, no result recorded), with strictly fewer typed moves, free cells and pending opponent turns left |
| LocalLoop.PassHandsOver | game/local/loop.go:169-200 | a pass that does not stop the loop hands the turn to the other player, except after the player's refused move; after the opponent's turn it is always the player's |
| LocalLoop.PlayAlternates | game/local/loop.go:161-200 | the turns recorded over the whole loop extend the starting ones and keep alternating |
| LocalLoop.PlayOutcome | game/local/loop.go:169-200 | the marks never change and the board stays consistent; Finished: a win or Draw is recorded and GameResult is its verdict; Quit: on the player's turn with every typed move used and nothing recorded; Aborted: on the opponent's turn on a full board, with the fatal message |
| LocalLoop.PlayAbortsIff | game/local/loop.go:188-191 | the loop aborts iff the opponent is to move on a full board, so from a board with a blank cell, the new board among them, it never aborts |
| LocalLoop.Loop.PlayerTurn | game/local/loop.go:170-180 | accepted iff the cell was blank; the board becomes ApplyMove of the own mark at (i, j); an accepted move gives finished and GameResult as Verdict.CheckResult of its result; a refused one changes neither the board nor GameResult |
| LocalLoop.Loop.OpponentTurn | game/local/loop.go:182-198 | errs iff no cell is free, and then changes nothing; otherwise the board becomes ApplyMove of the opponent's mark at the first blank cell, and finished and GameResult are Verdict.CheckResult of the result |
| LocalLoop.Loop.Round | game/local/loop.go:169-200 | one pass changes the board, GameResult, the recorded turns and the typed moves used exactly as Pass says |
| LocalLoop.Loop.PlayerRound | game/local/loop.go:170-180 | the player's pass changes the object exactly as Pass says |
| LocalLoop.Loop.OpponentRound | game/local/loop.go:182-198 | the opponent's pass changes the object exactly as Pass says |
| LocalLoop.Loop.HandleConnection | game/local/loop.go:146-202 | the outcome, turns, board and GameResult are those of Play from the board with the first player's marks; hence the turns start with player firstPlayer and strictly alternate, the marks are Marks(firstPlayer), Finished records a final result and GameResult its verdict, Quit happens only on the player's turn, and the loop aborts iff the opponent starts on a full board |
| LocalLoop.AlternationAlternates | game/local/loop.go:161-166 | the recorded turns start with the first player and no two consecutive turns belong to the same player |
| EarlyArbitration.GenNums | network.go:23-29 | RANDOM_TRIES (10) numbers, each 1 + draw % 2, so each is 1 or 2 |
| EarlyArbitration.GetFirstPlayer | network.go:31-39 | the value at the first index where the lists agree, or 0 when none does |
| EarlyArbitration.GetFirstPlayerSymmetric | network.go:31-39 | swapping the two lists gives the same answer |
| EarlyArbitration.GetFirstPlayerRange | network.go:31-39 | for lists of 1s and 2s, the answer is in {0, 1, 2}, and it is 0 iff no index agrees |

## Left out

- TCP set-up (`Listen`, `ConnectToServer`), `conn.Read`/`conn.Write` and the
  short-write check: the wire is a character sequence, and a peer's input is
  the sequence of frames it reads.
- gob encoding: a frame's payload is an opaque string on the wire and a
  decoded `Payload` value once read. An encoding failure in `sendMessage` is
  not modelled.
- The goroutine, the `Commands` and `responseChan` channels, and the view
  commands (`CmdMakeTurn`, `CmdWaitForOpponent`, ...): session steps return
  only the frames sent to the peer.
- Panic and recover: an abort is a `Failure` value without the formatted
  message text. Only the texts of the fatal frames are kept.
- `time.Now`, `rand.Seed`, `rand.Intn`, `rand.Int` and `genFirstPlayer`:
  clocks, draws and the local loop's first player are parameters. The half-second
  `time.Sleep` in the local loop is left out.
- The console front end (`getMove`, `printError`, `drawBoard`, flag parsing,
  the main loops of cl.go and ttt.go): user interface. Only the front end's
  `MakeOwnMove` call with retry on a taken cell is kept, as the MyTurn step.
- client.go and client/client.go: thin RPC wrappers. Their agreement loop is
  the same search as `getFirstPlayer`.
- The root network.go's `listen`, `connectToServer`, `handleConnection`,
  `negotiateTurn`, `writeObj`, `readObj`, `serialize` and `deserialize`:
  unfinished stubs.
- The getters `OwnChar`, `OppChar`, `At` and `FinalResult` are plain reads
  and carry no contract.
- MoveParser.ParseMove: on the error path Go also returns partly written
  coordinates, which every caller ignores. The model returns only the error.
- GameBoard.Board.MakeMove: coordinates are typed 0..2. In Go an index out of
  range panics; the networked session models that case as `Crashed`.
- PeerSession.Step: `handleConnection`'s loop is a transition function that
  the caller applies one input at a time, not a `while` loop, because its
  inputs arrive one by one from two sources.
- Arbitration.ValidateTurn and Arbitration.NegotiateTurn: timestamps are
  unbounded integers and use the corrected clock test below. The int64 test
  as written is modelled beside it.

## Findings

| source | as written | input that shows it | evidently intended | confidence | as-written member | corrected member |
|---|---|---|---|---|---|---|
| game/net/network.go:355-358 | `abs(mytime-timestamp) > 1` is computed in int64; the subtraction can wrap, and `abs` of the least int64 is that same negative value | a timestamp equal to mytime - 2^63 (with mytime 1700000000): the difference wraps to -2^63, its `abs` is -2^63, and the reading is accepted | refuse every timestamp more than one second from the local clock | medium, not executed | Arbitration.AsWrittenAcceptsDistantTimestamp | Arbitration.ClockSkewTooLarge |
