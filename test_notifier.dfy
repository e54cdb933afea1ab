/** The self-test payload pushed on the outbound (notify) characteristic. */
module TestNotifier {
  import opened ByteQueue

  datatype Option<T> = None | Some(value: T)

  /** The bytes "test". */
  const TEST_PREFIX: seq<Byte> := [0x74, 0x65, 0x73, 0x74]
  const NEWLINE: Byte := 0x0A
  /** The character '0'. */
  const ZERO_DIGIT: Byte := 0x30
  /** Number of bytes handed to the characteristic, out of the 7-byte buffer. */
  const TEST_PAYLOAD_LEN: nat := 6

  predicate IsDigit(b: Byte)
  {
    ZERO_DIGIT <= b < ZERO_DIGIT + 10
  }

  /** The rolling digit for a counter value, as the character '0'..'9'. */
  function Digit(k: nat): (d: Byte)
    ensures IsDigit(d)
  {
    k % 10 + ZERO_DIGIT
  }

  /** The payload of the test notification sent when the counter is `k`. */
  function TestPayload(k: nat): (p: seq<Byte>)
    ensures |p| == TEST_PAYLOAD_LEN
  {
    TEST_PREFIX + [Digit(k), NEWLINE]
  }

  /** What a peer reads back from a test notification: the digit, if the
      bytes have the shape "testD\n". */
  function ParseTestPayload(p: seq<Byte>): Option<nat>
  {
    if |p| == TEST_PAYLOAD_LEN && p[..4] == TEST_PREFIX && IsDigit(p[4]) && p[5] == NEWLINE
    then Some(p[4] - ZERO_DIGIT)
    else None
  }

  /** The payload always has the shape "testD\n", and the digit D it carries
      is the counter modulo 10. */
  lemma TestPayloadRoundTrip(k: nat)
    ensures ParseTestPayload(TestPayload(k)) == Some(k % 10)
  {
    var p := TestPayload(k);
    assert p[..4] == TEST_PREFIX;
  }

  /** Every well-formed test notification is the payload of some counter
      value, namely its own digit. */
  lemma ParsedPayloadIsTestPayload(p: seq<Byte>)
    requires ParseTestPayload(p).Some?
    ensures ParseTestPayload(p).value < 10
    ensures TestPayload(ParseTestPayload(p).value) == p
  {
    var d := ParseTestPayload(p).value;
    assert p == p[..4] + [p[4], p[5]];
    assert Digit(d) == p[4];
  }

  /** The digit rolls over: two counter values give the same payload exactly
      when they agree modulo 10. */
  lemma TestPayloadPeriodic(j: nat, k: nat)
    ensures TestPayload(j) == TestPayload(k) <==> j % 10 == k % 10
  {
    if TestPayload(j) == TestPayload(k) {
      assert TestPayload(j)[4] == TestPayload(k)[4];
    }
  }
}
