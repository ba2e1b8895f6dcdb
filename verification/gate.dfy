/**
 The silence gate in front of the recognizer. The capture callback hands over
 each block as Python `bytes`, so the test looks at raw byte values 0..255 of
 the little-endian 16-bit samples, not at the decoded sample amplitudes.
 */
module Gate {

  newtype Byte = b: int | 0 <= b < 256

  /** One captured block, exactly as the callback copies it into the queue. */
  type Frame = seq<Byte>

  /** The level below which a frame is treated as silence. */
  const Threshold: Byte := 100

  /** How a locale's script writes the gate: one `or`, or two consecutive `if`s. */
  datatype GateStyle = Combined | TwoStep

  /** Python's `any(data)`: some byte is non-zero. */
  predicate AnyNonZero(data: Frame) {
    exists i :: 0 <= i < |data| && data[i] != 0
  }

  /** Python's `max(data)`, which raises on an empty sequence. */
  function Max(data: Frame): (m: Byte)
    requires |data| > 0
    ensures m in data
    ensures forall i :: 0 <= i < |data| ==> data[i] <= m
  {
    if |data| == 1 then data[0]
    else
      var rest := Max(data[1..]);
      if data[0] >= rest then data[0] else rest
  }

  /** `not any(data) or max(data) < 100`: the English script's single test. */
  predicate DropsCombined(data: Frame) {
    !AnyNonZero(data) || Max(data) < Threshold
  }

  /** The Russian script's two tests in turn: all zeros first, then the maximum. */
  predicate DropsTwoStep(data: Frame) {
    if !AnyNonZero(data) then true
    else if Max(data) < Threshold then true
    else false
  }

  /** Whether the loop skips the frame instead of handing it to the recognizer. */
  predicate Drops(style: GateStyle, data: Frame) {
    match style
    case Combined => DropsCombined(data)
    case TwoStep => DropsTwoStep(data)
  }

  /** Some byte of the frame reaches the threshold. */
  ghost predicate Loud(data: Frame) {
    exists i :: 0 <= i < |data| && data[i] >= Threshold
  }

  /**
   Either way of writing the gate forwards a frame exactly when one of its
   bytes is at least 100; the all-zero test is subsumed by the maximum test.
   */
  lemma DropsIffQuiet(style: GateStyle, data: Frame)
    ensures Drops(style, data) <==> !Loud(data)
  {
    if Loud(data) {
      var i :| 0 <= i < |data| && data[i] >= Threshold;
      assert data[i] != 0;
    }
  }

  /** A frame of nothing but zero bytes (an empty one included) never reaches the recognizer. */
  lemma SilentFrameDropped(style: GateStyle, data: Frame)
    requires forall i :: 0 <= i < |data| ==> data[i] == 0
    ensures Drops(style, data)
  {
  }

  /** The signed 16-bit sample stored little-endian in two consecutive bytes. */
  function Sample(lo: Byte, hi: Byte): (v: int)
    ensures -32768 <= v < 32768
    ensures (v + 65536) % 65536 == lo as int + 256 * hi as int
  {
    var u := lo as int + 256 * hi as int;
    if u >= 32768 then u - 65536 else u
  }

  /**
   Because the gate reads bytes, the quietest negative sample (-1, bytes
   0xFF 0xFF) is forwarded, while a sample of 256 (bytes 0x00 0x01) is dropped.
   */
  lemma ByteGateIgnoresAmplitude(style: GateStyle)
    ensures Sample(255, 255) == -1 && !Drops(style, [255, 255])
    ensures Sample(0, 1) == 256 && Drops(style, [0, 1])
  {
    assert [255, 255][0] as int >= 100;
    DropsIffQuiet(style, [255, 255]);
    DropsIffQuiet(style, [0, 1]);
  }
}
