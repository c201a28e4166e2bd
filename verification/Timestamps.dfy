/**
  The timestamp that crosses from the chat service to the conversation service: seconds by floor,
  nanoseconds by JavaScript's remainder, which has the sign of the dividend.
 */
module Timestamps {

  datatype Timestamp = Timestamp(seconds: int, nanos: int)

  /** JavaScript's `%`. */
  function Remainder(a: int, b: int): int
    requires b > 0
  {
    if a >= 0 then a % b else -((-a) % b)
  }

  function ConvertDateToGrpcTimestamp(ms: int): Timestamp {
    Timestamp(ms / 1000, Remainder(ms, 1000) * 1_000_000)
  }

  /**
    `nanos` is a whole number of milliseconds on every timestamp the chat service sends; other
    timestamps are not modelled.
   */
  function ConvertGrpcTimestampToDate(t: Timestamp): int
  {
    t.seconds * 1000 + t.nanos / 1_000_000
  }

  lemma RemainderOfNegative(ms: int)
    requires ms < 0
    ensures Remainder(ms, 1000) == if ms % 1000 == 0 then 0 else ms % 1000 - 1000
  {
    var q, r := ms / 1000, ms % 1000;
    if r != 0 {
      assert -ms == 1000 * (-q - 1) + (1000 - r);
    } else {
      assert -ms == 1000 * (-q);
    }
  }

  /** The round trip is the identity from 1970 on and, before, on whole seconds; any other date lands a second early. */
  lemma RoundTrip(ms: int)
    ensures var t := ConvertDateToGrpcTimestamp(ms);
            && t.seconds * 1000 <= ms < t.seconds * 1000 + 1000
            && (ms >= 0 ==> t.nanos == (ms - t.seconds * 1000) * 1_000_000)
            && t.nanos % 1_000_000 == 0
            && ConvertGrpcTimestampToDate(t) == (if ms >= 0 || ms % 1000 == 0 then ms else ms - 1000)
            && (0 <= t.nanos <= 999_999_999 <==> ms >= 0 || ms % 1000 == 0)
  {
    if ms < 0 { RemainderOfNegative(ms); }
    assert Remainder(ms, 1000) == if ms >= 0 || ms % 1000 == 0 then ms % 1000 else ms % 1000 - 1000;
  }

  /** Even where it is not the identity the round trip never mixes up two dates. */
  lemma RoundTripIsInjective(a: int, b: int)
    requires ConvertGrpcTimestampToDate(ConvertDateToGrpcTimestamp(a)) ==
        ConvertGrpcTimestampToDate(ConvertDateToGrpcTimestamp(b))
    ensures a == b
  {
    RoundTrip(a);
    RoundTrip(b);
  }
}
