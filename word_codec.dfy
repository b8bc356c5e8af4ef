/**
 * The 16-bit acquisition word: a 4-bit channel tag above a 12-bit ADC intensity,
 * and the device's pin ordering of channel tags.
 */
module WordCodec {

  /** The largest 12-bit intensity. */
  const MAX_INTENSITY := 4095

  /** Clamps a value into the 12-bit intensity range [0, 4095]. */
  function Clamp(x: int): (r: int)
    ensures 0 <= r <= MAX_INTENSITY
    ensures 0 <= x <= MAX_INTENSITY ==> r == x
    ensures x > MAX_INTENSITY ==> r == MAX_INTENSITY
    ensures x < 0 ==> r == 0
  {
    if x > MAX_INTENSITY then MAX_INTENSITY else if x < 0 then 0 else x
  }

  /**
   * The encoded channel tag, `word >> 12`. Java's arithmetic shift is division by 2^12
   * rounded down, which is what Dafny's `/` does for a positive divisor.
   */
  function EncodedChannel(word: int): (tag: int)
    ensures tag * 4096 <= word < tag * 4096 + 4096
    ensures 0 <= word < 0x1_0000 ==> 0 <= tag <= 15
  {
    word / 4096
  }

  /**
   * The intensity, `word & 0xFFF` followed by a clamp into [0, 4095] that never fires.
   * In two's complement the mask is the remainder modulo 2^12, which is never negative.
   */
  function Value(word: int): (v: int)
    ensures 0 <= v <= MAX_INTENSITY
    ensures (word - v) % 4096 == 0
  {
    Clamp(word % 4096)
  }

  /** Maps a device channel tag to its analog pin number (7 -> A0, 6 -> A1, ...). */
  function TranslateChannel(tag: int): (pin: int)
    ensures 0 <= tag <= 7 ==> 0 <= pin <= 7
    ensures tag + pin == 7
  {
    7 - tag
  }

  /** The word the device sends for a tag and an intensity: the inverse of the decoder. */
  function Word(tag: int, intensity: int): (w: int)
    requires 0 <= tag <= 15 && 0 <= intensity <= MAX_INTENSITY
    ensures 0 <= w < 0x1_0000
  {
    tag * 4096 + intensity
  }

  /** Decoding an encoded word gives back its tag and its intensity. */
  lemma DecodeWord(tag: int, intensity: int)
    requires 0 <= tag <= 15 && 0 <= intensity <= MAX_INTENSITY
    ensures EncodedChannel(Word(tag, intensity)) == tag
    ensures Value(Word(tag, intensity)) == intensity
  {
  }

  /** Every 16-bit word is the encoding of its decoded tag and intensity. */
  lemma EncodeDecodedWord(w: int)
    requires 0 <= w < 0x1_0000
    ensures Word(EncodedChannel(w), Value(w)) == w
  {
  }

  /** Translating a tag twice gives the tag back. */
  lemma TranslateChannelInvolution(tag: int)
    ensures TranslateChannel(TranslateChannel(tag)) == tag
  {
  }
}
