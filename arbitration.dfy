/**
 * Choosing who starts, in game/net/network.go.  The connecting peer sends
 * its clock reading (`negotiateTurn`); the listening peer refuses a reading
 * more than one second away from its own clock, and otherwise both draw one
 * bit from a generator seeded with that reading (`validateTurn`).  The
 * listener keeps the bit, the connector inverts it.
 *
 * The clocks are parameters (`now`), and the seeded draw is an arbitrary
 * function `draw` from seed to bit that both peers share.  A peer's
 * incoming messages are the sequence `inbox`, read in order.
 */
module Arbitration {
  import opened Wrappers
  import opened Codec

  type Bit = x: int | 0 <= x < 2

  /** `invertPlayer`. */
  function InvertPlayer(player: int): (r: int)
    ensures player + r == 1
    ensures (player == 0 || player == 1) ==> (r == 0 || r == 1) && r != player
  {
    1 - player
  }

  lemma InvertPlayerInvolution(player: int)
    ensures InvertPlayer(InvertPlayer(player)) == player
  {
  }

  /** `abs`, on unbounded integers. */
  function Abs(x: int): (r: int)
    ensures r >= 0
    ensures r == x || r == -x
  {
    if x < 0 then -x else x
  }

  /** The listener's clock test, with exact arithmetic: more than one second apart. */
  function ClockSkewTooLarge(now: int, timestamp: int): (r: bool)
    ensures r <==> timestamp < now - 1 || now + 1 < timestamp
  {
    Abs(now - timestamp) > 1
  }

  // ---------------------------------------------------------------------
  // The same test in int64, as written
  // ---------------------------------------------------------------------

  const MinInt64: int := -0x8000_0000_0000_0000
  const MaxInt64: int := 0x7fff_ffff_ffff_ffff
  const TwoTo64: int := 0x1_0000_0000_0000_0000

  type Int64 = x: int | MinInt64 <= x <= MaxInt64

  /** Two's-complement wrap-around of an exact value into int64. */
  function Wrap64(x: int): (r: Int64)
    ensures (r - x) % TwoTo64 == 0
    ensures MinInt64 <= x <= MaxInt64 ==> r == x
  {
    (x - MinInt64) % TwoTo64 + MinInt64
  }

  /** `abs(x int64) int64` as written: negating the least int64 wraps back to it. */
  function Abs64(x: Int64): (r: Int64)
    ensures x != MinInt64 ==> r == Abs(x)
    ensures x == MinInt64 ==> r == MinInt64
  {
    if x < 0 then Wrap64(-(x as int)) else x
  }

  /** `abs(mytime-timestamp) > 1` evaluated in int64, as written. */
  function ClockSkewTooLargeAsWritten(now: Int64, timestamp: Int64): (r: bool)
    ensures r <==> Wrap64(now - timestamp) != MinInt64 && Abs(Wrap64(now - timestamp)) > 1
  {
    Abs64(Wrap64(now - timestamp)) > 1
  }

  /**
   * Without overflow the int64 test is the exact one: the two differ only
   * when `now - timestamp` leaves the int64 range or is its least value.
   */
  lemma AsWrittenAgreesWithoutOverflow(now: Int64, timestamp: Int64)
    requires MinInt64 < now - timestamp <= MaxInt64
    ensures ClockSkewTooLargeAsWritten(now, timestamp) == ClockSkewTooLarge(now, timestamp)
  {
  }

  /**
   * A timestamp 2^63 seconds before a present-day clock: the difference
   * wraps to the least int64, whose `abs` is negative, so the listener
   * accepts a reading that is in fact far off.
   */
  lemma AsWrittenAcceptsDistantTimestamp()
    ensures !ClockSkewTooLargeAsWritten(1_700_000_000, 1_700_000_000 + MinInt64)
    ensures ClockSkewTooLarge(1_700_000_000, 1_700_000_000 + MinInt64)
  {
    assert Wrap64(1_700_000_000 - (1_700_000_000 + MinInt64)) == MinInt64;
  }

  // ---------------------------------------------------------------------
  // The exchange
  // ---------------------------------------------------------------------

  /** What one peer sent, and the start order it settled on or why it gave up. */
  datatype Exchange = Exchange(sent: seq<Frame>, outcome: Result<int, Failure>)

  function Next(inbox: seq<Frame>, k: nat): Option<Frame>
  {
    if k < |inbox| then Some(inbox[k]) else None
  }

  /** The listener's `validateTurn`, using the exact clock test. */
  function ValidateTurn(now: int, draw: int -> Bit, inbox: seq<Frame>): (x: Exchange)
    ensures x.outcome.Ok? ==>
      && |inbox| >= 2 && inbox[0].tag == TagTimestamp && inbox[0].payload.IntValue?
      && !ClockSkewTooLarge(now, inbox[0].payload.n)
      && x.outcome.value == draw(inbox[0].payload.n)
      && inbox[1] == Frame(TagFirstPlayer, IntValue(x.outcome.value))
      && x.sent == [Frame(TagFirstPlayer, IntValue(x.outcome.value))]
  {
    match ExpectMessage(Next(inbox, 0), TagTimestamp, IntKind)
    case Err(e) => Exchange([], Err(e))
    case Ok(p) =>
      var timestamp := p.n;
      if ClockSkewTooLarge(now, timestamp) then
        Exchange([FatalFrame("bad timestamp")], Err(BadTimestamp))
      else
        var firstPlayer := draw(timestamp);
        var sent := [Frame(TagFirstPlayer, IntValue(firstPlayer))];
        match ExpectMessage(Next(inbox, 1), TagFirstPlayer, IntKind)
        case Err(e) => Exchange(sent, Err(e))
        case Ok(q) =>
          if firstPlayer != q.n then
            Exchange(sent + [FatalFrame("Mismatching first player")], Err(MismatchingFirstPlayer))
          else
            Exchange(sent, Ok(firstPlayer))
  }

  /** The connector's `negotiateTurn`. */
  function NegotiateTurn(now: int, draw: int -> Bit, inbox: seq<Frame>): (x: Exchange)
    ensures |x.sent| >= 1 && x.sent[0] == Frame(TagTimestamp, IntValue(now))
    ensures x.outcome.Ok? <==> |inbox| >= 1 && inbox[0] == Frame(TagFirstPlayer, IntValue(draw(now)))
    ensures x.outcome.Ok? ==>
      x.outcome.value == InvertPlayer(draw(now)) &&
      x.sent == [Frame(TagTimestamp, IntValue(now)), Frame(TagFirstPlayer, IntValue(draw(now)))]
  {
    var sent := [Frame(TagTimestamp, IntValue(now))];
    match ExpectMessage(Next(inbox, 0), TagFirstPlayer, IntKind)
    case Err(e) => Exchange(sent, Err(e))
    case Ok(p) =>
      var firstPlayer := draw(now);
      if firstPlayer != p.n then
        Exchange(sent + [FatalFrame("Mismatching first player")], Err(MismatchingFirstPlayer))
      else
        Exchange(sent + [Frame(TagFirstPlayer, IntValue(firstPlayer))], Ok(InvertPlayer(firstPlayer)))
  }

  /**
   * The listener judges the clock before anything else: a reading too far
   * off is answered with the fatal message alone, no firstPlayer message.
   * Conversely, a firstPlayer message is only ever sent for a close reading.
   */
  lemma SkewIsRefusedFirst(now: int, draw: int -> Bit, inbox: seq<Frame>)
    ensures var x := ValidateTurn(now, draw, inbox);
      x.outcome == Err(BadTimestamp) <==>
        (|inbox| > 0 && inbox[0].tag == TagTimestamp && inbox[0].payload.IntValue? &&
         ClockSkewTooLarge(now, inbox[0].payload.n))
    ensures var x := ValidateTurn(now, draw, inbox);
      x.outcome == Err(BadTimestamp) ==> x.sent == [FatalFrame("bad timestamp")]
    ensures var x := ValidateTurn(now, draw, inbox);
      (exists k :: 0 <= k < |x.sent| && x.sent[k].tag == TagFirstPlayer) ==>
        |inbox| > 0 && inbox[0].tag == TagTimestamp && inbox[0].payload.IntValue? &&
        !ClockSkewTooLarge(now, inbox[0].payload.n)
  {
    var x := ValidateTurn(now, draw, inbox);
    if exists k :: 0 <= k < |x.sent| && x.sent[k].tag == TagFirstPlayer {
      var k :| 0 <= k < |x.sent| && x.sent[k].tag == TagFirstPlayer;
      assert x.sent[k].tag != TagFatal;
    }
  }

  /** The listener settles only on the bit drawn from the timestamp, and only when the peer echoes it. */
  lemma ListenerAgreesOnlyOnEcho(now: int, draw: int -> Bit, inbox: seq<Frame>)
    requires ValidateTurn(now, draw, inbox).outcome.Ok?
    ensures |inbox| >= 2 && inbox[0].tag == TagTimestamp && inbox[0].payload.IntValue?
    ensures !ClockSkewTooLarge(now, inbox[0].payload.n)
    ensures var bit := draw(inbox[0].payload.n);
      ValidateTurn(now, draw, inbox).outcome == Ok(bit) && inbox[1] == Frame(TagFirstPlayer, IntValue(bit))
  {
  }

  /** A listener that claims a bit other than the drawn one is refused, with a fatal message. */
  lemma ConnectorRefusesWrongClaim(now: int, draw: int -> Bit, claimed: int)
    requires claimed != draw(now)
    ensures var x := NegotiateTurn(now, draw, [Frame(TagFirstPlayer, IntValue(claimed))]);
      x.outcome == Err(MismatchingFirstPlayer) && x.sent[|x.sent| - 1] == FatalFrame("Mismatching first player")
  {
  }

  /**
   * Two honest peers whose clocks are at most one second apart: each one's
   * messages are the other's inbox, both settle, and exactly one of them
   * starts (the player numbered 0 makes the first move).
   */
  lemma HonestArbitration(connectorNow: int, listenerNow: int, draw: int -> Bit)
    requires !ClockSkewTooLarge(listenerNow, connectorNow)
    ensures var bit := draw(connectorNow);
      var listener := ValidateTurn(listenerNow, draw, [Frame(TagTimestamp, IntValue(connectorNow)), Frame(TagFirstPlayer, IntValue(bit))]);
      var connector := NegotiateTurn(connectorNow, draw, listener.sent);
      && listener.sent == [Frame(TagFirstPlayer, IntValue(bit))]
      && connector.sent == [Frame(TagTimestamp, IntValue(connectorNow)), Frame(TagFirstPlayer, IntValue(bit))]
      && listener.outcome == Ok(bit)
      && connector.outcome == Ok(1 - bit)
      && (listener.outcome.value == 0 <==> connector.outcome.value != 0)
  {
  }
}
