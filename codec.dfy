/**
 * The message layer of game/net/network.go: the six message tags, the
 * frame layout `<tag>;<payload>` that `serialize` writes, the byte-by-byte
 * tag reader `receiveMessage`, and the checks of `expectMessage`.
 *
 * The wire is a sequence of characters, one per byte (every tag is ASCII).
 * The gob encoding of a payload is not modelled: on the wire it is an
 * opaque byte string after the ';', and once decoded it is a `Payload`.
 */
module Codec {
  import opened Wrappers

  const Delimiter: char := ';'

  const TagTurn: string := "turn"
  const TagFatal: string := "fatal"
  const TagWinStatus: string := "winstatus"
  const TagWinStatusConfirm: string := "winstatusConfirmation"
  const TagTimestamp: string := "timestamp"
  const TagFirstPlayer: string := "firstPlayer"

  const DeclaredTags: seq<string> := [TagTurn, TagFatal, TagWinStatus, TagWinStatusConfirm, TagTimestamp, TagFirstPlayer]

  /** The payload of a `turn` message: the coordinates and the mover's result. */
  datatype TurnData = TurnData(row: int, col: int, result: int)

  /** A decoded payload: the shapes the protocol sends. */
  datatype Payload = IntValue(n: int) | BoolValue(b: bool) | TurnValue(turn: TurnData) | TextValue(text: string)

  datatype Kind = IntKind | BoolKind | TurnKind | TextKind

  function KindOf(p: Payload): Kind
  {
    match p
    case IntValue(_) => IntKind
    case BoolValue(_) => BoolKind
    case TurnValue(_) => TurnKind
    case TextValue(_) => TextKind
  }

  /** One message as the receiver sees it: the tag and the decoded payload. */
  datatype Frame = Frame(tag: string, payload: Payload)

  function FatalFrame(message: string): Frame
  {
    Frame(TagFatal, TextValue(message))
  }

  /** Why a session ends early. */
  datatype Failure =
    | ReadError                          // the connection failed or closed mid-frame
    | PeerFatal(message: Option<string>) // the peer sent "fatal"
    | UnexpectedMessage(tag: string)
    | UndecodablePayload
    | InvalidPeerMove
    | MismatchingTurnResult
    | ResultNotConfirmed
    | ResultMismatch
    | BadTimestamp
    | MismatchingFirstPlayer

  // ---------------------------------------------------------------------
  // Framing
  // ---------------------------------------------------------------------

  /** `serialize`: the tag bytes, one ';', then the encoded payload. */
  function Serialize(tag: string, payload: seq<char>): (r: seq<char>)
    ensures |r| == |tag| + 1 + |payload|
    ensures r[..|tag|] == tag && r[|tag|] == Delimiter && r[|tag| + 1..] == payload
  {
    tag + [Delimiter] + payload
  }

  /**
   * What `receiveMessage` reads: the bytes before the first ';', and the
   * stream left after it; nothing when the stream ends before a ';'.
   */
  function ReadTag(s: seq<char>): (r: Option<(string, seq<char>)>)
    ensures r.Some? <==> Delimiter in s
    ensures r.Some? ==> s == r.value.0 + [Delimiter] + r.value.1 && Delimiter !in r.value.0
  {
    if s == [] then None
    else if s[0] == Delimiter then Some(([], s[1..]))
    else
      match ReadTag(s[1..])
      case None => None
      case Some((t, rest)) =>
        assert s == [s[0]] + s[1..];
        Some(([s[0]] + t, rest))
  }

  /** A split at a ';' that the tag does not contain is the one `ReadTag` finds. */
  lemma {:induction false} ReadTagOfSplit(tag: string, rest: seq<char>)
    requires Delimiter !in tag
    ensures ReadTag(tag + [Delimiter] + rest) == Some((tag, rest))
  {
    var s := tag + [Delimiter] + rest;
    if tag != [] {
      ReadTagOfSplit(tag[1..], rest);
      assert s[1..] == tag[1..] + [Delimiter] + rest;
      assert [s[0]] + tag[1..] == tag;
    }
  }

  /** Round trip: a tag without ';' comes back from its frame, and so does the payload. */
  lemma FrameRoundTrip(tag: string, payload: seq<char>)
    requires Delimiter !in tag
    ensures ReadTag(Serialize(tag, payload)) == Some((tag, payload))
  {
    ReadTagOfSplit(tag, payload);
  }

  /** None of the six declared tags contains ';', so all of them round-trip. */
  lemma DeclaredTagsRoundTrip(k: nat, payload: seq<char>)
    requires k < |DeclaredTags|
    ensures ReadTag(Serialize(DeclaredTags[k], payload)) == Some((DeclaredTags[k], payload))
  {
    assert Delimiter !in DeclaredTags[k];
    FrameRoundTrip(DeclaredTags[k], payload);
  }

  /**
   * `receiveMessage`: reads one byte at a time into a buffer until ';'.
   * A stream that ends first is the read error.
   */
  method ReceiveMessage(stream: seq<char>) returns (r: Result<(string, seq<char>), Failure>)
    ensures r.Ok? <==> ReadTag(stream).Some?
    ensures r.Ok? ==> r.value == ReadTag(stream).value
    ensures r.Err? ==> r.error == ReadError
  {
    var buf: string := [];
    var pos := 0;
    while pos < |stream|
      invariant 0 <= pos <= |stream|
      invariant buf == stream[..pos] && Delimiter !in buf
    {
      var b := stream[pos];
      pos := pos + 1;
      if b == Delimiter {
        assert stream == buf + [Delimiter] + stream[pos..];
        ReadTagOfSplit(buf, stream[pos..]);
        return Ok((buf, stream[pos..]));
      }
      buf := buf + [b];
    }
    assert buf == stream;
    return Err(ReadError);
  }

  // ---------------------------------------------------------------------
  // expectMessage
  // ---------------------------------------------------------------------

  /**
   * `expectMessage(expected, value)` on the next frame (None: the read
   * failed).  "fatal" always aborts, carrying the peer's text when it
   * decodes; a different tag aborts; only the expected tag with a payload of
   * the expected shape is accepted.
   */
  function ExpectMessage(frame: Option<Frame>, expected: string, kind: Kind): (r: Result<Payload, Failure>)
    ensures r.Ok? <==> frame.Some? && frame.value.tag != TagFatal && frame.value.tag == expected && KindOf(frame.value.payload) == kind
    ensures r.Ok? ==> r.value == frame.value.payload
    ensures frame.None? ==> r == Err(ReadError)
    ensures frame.Some? && frame.value.tag == TagFatal ==> r.Err? && r.error.PeerFatal?
    ensures frame.Some? && frame.value.tag != TagFatal && frame.value.tag != expected ==> r == Err(UnexpectedMessage(frame.value.tag))
  {
    match frame
    case None => Err(ReadError)
    case Some(f) =>
      if f.tag == TagFatal then Err(PeerFatal(if f.payload.TextValue? then Some(f.payload.text) else None))
      else if f.tag != expected then Err(UnexpectedMessage(f.tag))
      else if KindOf(f.payload) != kind then Err(UndecodablePayload)
      else Ok(f.payload)
  }
}
