/**
  The constants and pure accessors of the audio output's header: the maximum
  network jitter the buffer is sized for, the six sample-format codes and the
  number of bytes one frame (one sample for every channel) occupies.
 */
module AudioFormat {
  import opened Bits

  /** Largest network jitter, in milliseconds, that the buffer is sized to absorb. */
  const MaxNetworkJitterInMillisec: nat := 1000

  /** Sample-format codes; a format's code shifted right by one selects its width. */
  const SampleFormatU8: nat := 0
  const SampleFormatS8: nat := 1
  const SampleFormatU16: nat := 2
  const SampleFormatS16: nat := 3
  const SampleFormatU32: nat := 4
  const SampleFormatS32: nat := 5

  /** The formats the header defines. */
  predicate IsSampleFormat(format: nat)
  {
    format in {SampleFormatU8, SampleFormatS8, SampleFormatU16, SampleFormatS16, SampleFormatU32, SampleFormatS32}
  }

  /** Reference table: bytes of one channel's sample, by format name. */
  function BytesPerChannel(format: nat): (w: nat)
    requires IsSampleFormat(format)
    ensures IsPowerOfTwo(w)
  {
    if format == SampleFormatU8 || format == SampleFormatS8 then 1
    else if format == SampleFormatU16 || format == SampleFormatS16 then 2
    else 4
  }

  /**
    `getSampleSize()`: `numberOfChannels << (sampleFormat >> 1)` bytes per frame.
    For every format of the header this is the channel count times the width of
    one sample.
   */
  function SampleSize(numberOfChannels: nat, sampleFormat: nat): (r: nat)
    ensures IsSampleFormat(sampleFormat) ==> r == numberOfChannels * BytesPerChannel(sampleFormat)
  {
    ShiftLeftSmall(numberOfChannels);
    ShiftLeft(numberOfChannels, sampleFormat / 2)
  }

  /** A power-of-two channel count gives a power-of-two frame size, whatever the format code. */
  lemma SampleSizePowerOfTwo(numberOfChannels: nat, sampleFormat: nat)
    requires IsPowerOfTwo(numberOfChannels)
    ensures IsPowerOfTwo(SampleSize(numberOfChannels, sampleFormat))
    ensures SampleSize(numberOfChannels, sampleFormat) >= numberOfChannels
  {
    ShiftLeftPowerOfTwo(numberOfChannels, sampleFormat / 2);
  }

  /** The codes are pairwise distinct and each unsigned/signed pair shares one width. */
  lemma SampleFormatsPaired()
    ensures forall f: nat :: IsSampleFormat(f) <==> f < 6
    ensures forall f: nat :: IsSampleFormat(f) ==> BytesPerChannel(f) == ShiftLeft(1, f / 2)
    ensures SampleFormatU8 / 2 == SampleFormatS8 / 2 == 0
    ensures SampleFormatU16 / 2 == SampleFormatS16 / 2 == 1
    ensures SampleFormatU32 / 2 == SampleFormatS32 / 2 == 2
  {
    ShiftLeftSmall(1);
  }

  /** The constructor's format, 16-bit signed stereo, takes four bytes per frame. */
  lemma DefaultSampleSize()
    ensures SampleSize(2, SampleFormatS16) == 4
    ensures IsPowerOfTwo(SampleSize(2, SampleFormatS16))
  {
  }
}
