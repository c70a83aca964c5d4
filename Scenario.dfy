/**
  A client of the audio output driving one playback session with the
  constructor's defaults: open, start the stream, let the device drain the
  silence pre-roll, queue a burst of network samples and let the device play
  two periods of it.
 */
module AudioScenario {
  import opened Bits
  import opened AudioFormat
  import opened Ring
  import opened GenericAudio

  /** Bytes in one 20 ms device period of 441 four-byte frames. */
  const PeriodBytes: nat := 1764

  /** Opens a default-constructed output: an empty, open store of 524288 bytes. */
  method OpenDefault() returns (audio: GenericAudioOutput)
    ensures fresh(audio) && fresh(audio.buf) && audio.Valid() && audio.openedGO
    ensures audio.sampleFormat == SampleFormatS16 && audio.GetSampleSize() == 4
    ensures audio.samplingFreq == 22050 && audio.extraDelayInMillisec == 0
    ensures audio.bufTotalSize == 524288 && audio.bufFreeSize == 524288 && audio.Contents == []
  {
    audio := new GenericAudioOutput();
    var isOpen := audio.OpenAndAllocateBuffer(true, true, true);
    DefaultSizing();
  }

  /**
    Starts the stream and lets the device take one period: it receives the
    whole pre-roll, so the queue is empty again and the latest period is known.
   */
  method PlayPreRoll(audio: GenericAudioOutput) returns (first: seq<byte>)
    requires audio.Valid() && audio.openedGO
    requires audio.sampleFormat == SampleFormatS16 && audio.GetSampleSize() == 4
    requires audio.samplingFreq == 22050 && audio.extraDelayInMillisec == 0
    requires audio.bufTotalSize == 524288 && audio.bufFreeSize == 524288 && audio.Contents == []
    modifies audio, audio.buf
    ensures first == Fill(0, PeriodBytes)
    ensures audio.Valid() && audio.openedGO && audio.buf == old(audio.buf)
    ensures audio.bufFreeSize == 524288 && audio.Contents == [] && audio.frameBytes == PeriodBytes
  {
    DefaultSizing();
    audio.NotifyStreamingStartStop(true);
    assert audio.Contents == Fill(0, PeriodBytes);
    var out := new byte[PeriodBytes];
    audio.Pull(out, 441, 4);
    first := out[..];
  }

  /**
    One device callback asking for a 20 ms period while at least a period is
    queued: the device receives the oldest period's bytes.
   */
  method PlayPeriod(audio: GenericAudioOutput) returns (period: seq<byte>)
    requires audio.Valid() && |audio.Contents| >= PeriodBytes
    modifies audio
    ensures period == old(audio.Contents)[..PeriodBytes]
    ensures audio.Valid() && audio.Contents == old(audio.Contents)[PeriodBytes..]
    ensures audio.buf == old(audio.buf) && audio.openedGO == old(audio.openedGO)
  {
    var out := new byte[PeriodBytes];
    audio.Pull(out, 441, 4);
    period := out[..];
  }

  /**
    The device hears the 441 silent frames of the pre-roll first and then the
    network samples in the order they arrived, one period per callback.
   */
  method PlaybackSession(data: seq<byte>) returns (first: seq<byte>, second: seq<byte>, third: seq<byte>)
    requires 2 * PeriodBytes <= |data| <= 524288
    ensures first == Fill(0, PeriodBytes)
    ensures second == data[..PeriodBytes]
    ensures third == data[PeriodBytes..2 * PeriodBytes]
  {
    var audio := OpenDefault();
    first := PlayPreRoll(audio);

    var taken := audio.AddSamples(data);
    assert audio.Contents == data;

    second := PlayPeriod(audio);
    third := PlayPeriod(audio);
    assert data[PeriodBytes..][..PeriodBytes] == data[PeriodBytes..2 * PeriodBytes];
  }
}
