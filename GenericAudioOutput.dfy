/**
  The jitter-buffered audio output: a power-of-two circular byte store filled
  by the network side (`AddSamples`, silence from `AddSilentSamples` and
  `NotifyStreamingStartStop`) and drained, at most one device period at a time,
  by the playback device's callback (`Pull`).

  The playback device itself (miniaudio) is outside the model: whether its
  initialisation and start succeed are parameters of `OpenAndAllocateBuffer`,
  and the device's bytes per frame is a parameter of `Pull`.
 */
module GenericAudio {
  import opened Bits
  import opened AudioFormat
  import opened Ring

  /**
    Buffer size, in frames, before rounding: four times the maximum network
    jitter worth of frames (`4 * maxNetworkJitterInMillisec * samplingFreq / 1000`).
   */
  function BufferEstimate(samplingFreq: nat): (r: nat)
    ensures r == 4 * samplingFreq
  {
    (4 * MaxNetworkJitterInMillisec * samplingFreq) / 1000
  }

  /** Frames of silence queued when a stream starts: `(20 + extra)` milliseconds' worth, rounded down. */
  function PreRollFrames(extraDelayInMillisec: nat, samplingFreq: nat): (r: nat)
    ensures r * 1000 <= (20 + extraDelayInMillisec) * samplingFreq < (r + 1) * 1000
  {
    (20 + extraDelayInMillisec) * samplingFreq / 1000
  }

  /** The byte a silent sample is made of: mid-scale for unsigned 8-bit, zero otherwise. */
  function SilenceByte(sampleFormat: nat): (b: byte)
    ensures b == 0x80 <==> sampleFormat == SampleFormatU8
    ensures b != 0x80 ==> b == 0
  {
    if sampleFormat == SampleFormatU8 then 0x80 else 0
  }

  /**
    The constructor's stream (16-bit signed stereo at 22050 Hz, no extra
    delay) is sized for 88200 frames, rounded up to 131072 frames of four
    bytes, and starts with a pre-roll of 441 silent frames.
   */
  lemma DefaultSizing()
    ensures BufferEstimate(22050) == 88200
    ensures LeastPowerOfTwoAtLeast(88200) == 131072
    ensures 131072 * SampleSize(2, SampleFormatS16) == 524288
    ensures PreRollFrames(0, 22050) == 441
  {
    DefaultSampleSize();
    // 131072 == 2^17 == 16 * 16 * 16 * 32
    assert IsPowerOfTwo(16) && IsPowerOfTwo(32);
    PowerOfTwoProduct(16, 16);
    PowerOfTwoProduct(256, 16);
    PowerOfTwoProduct(4096, 32);
    assert IsLeastPowerOfTwoAtLeast(131072, 88200);
    LeastPowerOfTwoUnique(LeastPowerOfTwoAtLeast(88200), 131072, 88200);
  }

  /**
    The doubling loop of `openAndAllocateBuffer`: the buffer's frame count is
    the smallest power of two that is at least `estimate`.
   */
  method BufferFrameCount(estimate: nat) returns (frames: nat)
    ensures IsLeastPowerOfTwoAtLeast(frames, estimate)
  {
    frames := 1;
    while frames < estimate
      invariant IsPowerOfTwo(frames)
      invariant frames == 1 || frames / 2 < estimate
      decreases estimate - frames
    {
      ShiftLeftSmall(frames);
      frames := ShiftLeft(frames, 1);
    }
  }

  /**
    The cursor update `(head + count) & (total - 1)`: for a power-of-two store
    and a copy that stops at its end, the advanced cursor modulo `total`.
   */
  method AdvanceCursor(head: nat, count: nat, total: nat) returns (next: nat)
    requires IsPowerOfTwo(total) && head + count <= total
    ensures next == Wrap(head + count, total)
  {
    MaskedAdvance(head, count, total);
    next := BitAnd(head + count, total - 1);
  }

  /**
    Bytes the next `memcpy` of a producer copy moves: what is left, clamped
    to the free space and then to the slots before the end of the store.
   */
  function RunLength(left: nat, free: nat, head: nat, total: nat): (n: nat)
    requires head <= total
    ensures n <= left && n <= free && head + n <= total
    ensures n == left || n == free || head + n == total
    ensures n == 0 <==> left == 0 || free == 0 || head == total
  {
    var n := if left > free then free else left;
    if n + head > total then total - head else n
  }

  /**
    Bytes the next copy of the device callback moves: what is left, clamped
    to the slots before the end of the store.
   */
  function ReadRunLength(left: nat, sub: nat, total: nat): (n: nat)
    requires sub <= total
    ensures n <= left && sub + n <= total
    ensures n == left || sub + n == total
    ensures n == 0 <==> left == 0 || sub == total
  {
    if left + sub > total then total - sub else left
  }

  /**
    One `memcpy` of the copy loop: writes `n` more bytes of `src`, from
    `copied` on, into the free slots that follow the bytes already queued,
    and leaves the queued bytes' slots alone.
   */
  method CopyRun(store: array<byte>, total: nat, sub: nat, head: nat, src: seq<byte>, copied: nat, n: nat,
                 ghost queued: seq<byte>)
    requires HoldsAppended(store, sub, total, queued, src, copied)
    requires |queued| + copied + n <= total && copied + n <= |src|
    requires head == Slot(sub, |queued| + copied, total) && head + n <= total
    modifies store
    ensures HoldsAppended(store, sub, total, queued, src, copied + n)
  {
    ghost var unsub := |queued| + copied;
    forall k | 0 <= k < n {
      store[head + k] := src[copied + k];
    }
    forall i | 0 <= i < unsub
      ensures store[Slot(sub, i, total)] == old(store[Slot(sub, i, total)])
    {
      RunMissesQueued(sub, unsub, n, i, total);
    }
    forall i | unsub <= i < unsub + n
      ensures store[Slot(sub, i, total)] == src[i - |queued|]
    {
      SlotAdvance(sub, unsub, i - unsub, total);
    }
  }

  /**
    The copy loop of `addSamples` and `addSilentSamples`: copies the bytes of
    `src` into the store at the write cursor `head`, one run up to the end of
    the store at a time, until `src` is used up or the free space is. Returns
    the new write cursor and counters and the number of bytes written, and
    the store then holds `src`'s first `copied` bytes after the `queued` ones.
   */
  method QueueBytes(store: array<byte>, total: nat, sub: nat, head: nat, free: nat, unsub: nat,
                    src: seq<byte>, ghost queued: seq<byte>)
    returns (head': nat, free': nat, unsub': nat, copied: nat, ghost runs: nat)
    requires IsPowerOfTwo(total) && Holds(store, sub, total, queued)
    requires unsub == |queued| && free + unsub == total && head == Slot(sub, unsub, total)
    modifies store
    ensures copied == Min(|src|, free)
    ensures unsub' == unsub + copied && free' == free - copied && head' == Slot(sub, unsub', total)
    ensures HoldsAppended(store, sub, total, queued, src, copied)
    ensures runs <= 2
  {
    head', free', unsub', copied, runs := head, free, unsub, 0, 0;
    var bytesLeftToCopy: nat := |src|;
    while bytesLeftToCopy != 0
      invariant HoldsAppended(store, sub, total, queued, src, copied)
      invariant unsub' == unsub + copied && free' + unsub' == total
      invariant copied + bytesLeftToCopy == |src|
      invariant head' == Slot(sub, unsub', total)
      invariant runs <= 2
      invariant runs == 1 ==> bytesLeftToCopy == 0 || free' == 0 || head' + free' <= total
      invariant runs == 2 ==> bytesLeftToCopy == 0 || free' == 0
      decreases bytesLeftToCopy
    {
      var bytesToCopy := RunLength(bytesLeftToCopy, free', head', total);
      if bytesToCopy == 0 {
        break;
      }
      CopyRun(store, total, sub, head', src, copied, bytesToCopy, queued);
      SlotAdvance(sub, unsub', bytesToCopy, total);
      head' := AdvanceCursor(head', bytesToCopy, total);
      free' := free' - bytesToCopy;
      unsub' := unsub' + bytesToCopy;
      copied := copied + bytesToCopy;
      bytesLeftToCopy := bytesLeftToCopy - bytesToCopy;
      runs := runs + 1;
    }
  }

  /**
    The first `n` bytes of `output` are the `n` oldest queued bytes and the
    rest are as they were (`before`).
   */
  ghost predicate CopiedOut(output: array<byte>, queued: seq<byte>, n: nat, before: seq<byte>)
    reads output
  {
    output.Length == |before| && n <= |queued| && n <= |before| &&
    (forall k :: 0 <= k < n ==> output[k] == queued[k]) &&
    (forall k :: n <= k < output.Length ==> output[k] == before[k])
  }

  /**
    One `memcpy` of the device callback: copies the `n` queued bytes after
    the `copied` already delivered, from the slot `head` on, to `output`.
   */
  method CopyOut(store: array<byte>, total: nat, sub: nat, head: nat, output: array<byte>, copied: nat, n: nat,
                 ghost queued: seq<byte>, ghost before: seq<byte>)
    requires Holds(store, sub, total, queued) && output != store
    requires CopiedOut(output, queued, copied, before)
    requires copied + n <= |queued| && copied + n <= output.Length
    requires head == Slot(sub, copied, total) && head + n <= total
    modifies output
    ensures CopiedOut(output, queued, copied + n, before)
  {
    forall j | copied <= j < copied + n
      ensures Slot(sub, j, total) == head + (j - copied)
    {
      SlotAdvance(sub, copied, j - copied, total);
    }
    forall k | 0 <= k < n {
      output[copied + k] := store[head + k];
    }
  }

  /**
    The copy loop of the device callback: copies the `ioBytes` oldest queued
    bytes, one run up to the end of the store at a time, to the front of
    `output`, and returns the new read cursor and counters.
   */
  method DequeueBytes(store: array<byte>, total: nat, sub: nat, free: nat, unsub: nat,
                      output: array<byte>, ioBytes: nat, ghost queued: seq<byte>)
    returns (sub': nat, free': nat, unsub': nat, ghost runs: nat)
    requires IsPowerOfTwo(total) && Holds(store, sub, total, queued) && unsub == |queued|
    requires output != store && ioBytes <= unsub && ioBytes <= output.Length
    modifies output
    ensures sub' == Slot(sub, ioBytes, total) && free' == free + ioBytes && unsub' == unsub - ioBytes
    ensures CopiedOut(output, queued, ioBytes, old(output[..]))
    ensures runs <= 2
  {
    ghost var before := output[..];
    sub', free', unsub', runs := sub, free, unsub, 0;
    var outOffset: nat := 0;
    var bytesLeftToCopy: nat := ioBytes;
    while bytesLeftToCopy != 0
      invariant outOffset + bytesLeftToCopy == ioBytes
      invariant unsub' + outOffset == unsub && free' == free + outOffset
      invariant sub' == Slot(sub, outOffset, total)
      invariant CopiedOut(output, queued, outOffset, before)
      invariant runs <= 2
      invariant runs == 1 ==> bytesLeftToCopy == 0 || sub' + bytesLeftToCopy <= total
      invariant runs == 2 ==> bytesLeftToCopy == 0
      decreases bytesLeftToCopy
    {
      var bytesToCopy := ReadRunLength(bytesLeftToCopy, sub', total);
      if bytesToCopy == 0 {
        // the read cursor is always below the store size
        assert false;
        return;
      }
      CopyOut(store, total, sub, sub', output, outOffset, bytesToCopy, queued, before);
      SlotAdvance(sub, outOffset, bytesToCopy, total);
      sub' := AdvanceCursor(sub', bytesToCopy, total);
      outOffset := outOffset + bytesToCopy;
      bytesLeftToCopy := bytesLeftToCopy - bytesToCopy;
      unsub' := unsub' - bytesToCopy;
      free' := free' + bytesToCopy;
      runs := runs + 1;
    }
  }

  /**
    The invariant of the circular store and its counters: free and queued
    bytes add up to the store size, which is a power of two; the read cursor
    is inside the store and the write cursor sits the queued byte count
    after it, wrapping round once at most; nothing is queued while the output
    is closed, and while it is open the store holds the queued bytes `contents`
    from the read cursor on.
   */
  ghost predicate RingInvariant(store: array?<byte>, total: nat, free: nat, unsub: nat, sub: nat, unsubHead: nat,
                                contents: seq<byte>, isOpen: bool)
    reads store
  {
    free + unsub == total &&
    |contents| == unsub &&
    (sub < total || sub == total == 0) &&
    unsubHead == Slot(sub, unsub, total) &&
    (total > 0 ==> IsPowerOfTwo(total)) &&
    (store != null ==> store.Length == total) &&
    (!isOpen ==> unsub == 0) &&
    (isOpen ==> store != null && total > 0 && Holds(store, sub, total, contents))
  }

  /**
    Handing the `count` oldest queued bytes to the device and freeing their
    slots keeps the invariant: the read cursor moves `count` slots on and the
    store still holds the rest of the queue.
   */
  lemma DropKeepsInvariant(store: array?<byte>, total: nat, free: nat, unsub: nat, sub: nat, unsubHead: nat,
                           contents: seq<byte>, count: nat)
    requires RingInvariant(store, total, free, unsub, sub, unsubHead, contents, true)
    requires count <= unsub
    ensures RingInvariant(store, total, free + count, unsub - count, Slot(sub, count, total), unsubHead,
                          contents[count..], true)
  {
    HoldsDrop(store, sub, total, contents, count);
    SlotAdvance(sub, count, unsub - count, total);
  }

  class GenericAudioOutput {
    // Stream format, fixed by the constructor.
    const sampleFormat: nat
    const numberOfChannels: nat
    const samplingFreq: nat
    const extraDelayInMillisec: nat

    var haveGO: bool
    var openedGO: bool
    /** Set around a producer write; nothing reads it. */
    var cbLock: bool
    /** Bytes the device asked for in its latest callback; never initialised by the constructor. */
    var frameBytes: nat

    /** The circular store (`bufPtr`), null until the first allocation. */
    var buf: array?<byte>
    var bufTotalSize: nat
    var bufFreeSize: nat
    var bufUnsubmittedSize: nat
    /** Read cursor: slot of the oldest queued byte. */
    var bufSubmittedHead: nat
    /** Write cursor: slot the next queued byte goes to. */
    var bufUnsubmittedHead: nat

    /** The queued (unsubmitted) bytes, oldest first. */
    ghost var Contents: seq<byte>

    /** The buffer's invariant. */
    ghost predicate Valid()
      reads this, buf
    {
      IsPowerOfTwo(GetSampleSize()) &&
      (!haveGO ==> !openedGO) &&
      RingInvariant(buf, bufTotalSize, bufFreeSize, bufUnsubmittedSize, bufSubmittedHead, bufUnsubmittedHead,
                    Contents, openedGO)
    }

    constructor ()
      ensures Valid()
      ensures sampleFormat == SampleFormatS16 && numberOfChannels == 2
      ensures samplingFreq == 22050 && extraDelayInMillisec == 0
      ensures haveGO && !openedGO && !cbLock
      ensures buf == null && bufTotalSize == 0 && bufFreeSize == 0 && bufUnsubmittedSize == 0
      ensures bufSubmittedHead == 0 && bufUnsubmittedHead == 0 && Contents == []
    {
      var sFreq := 22050;
      var nChannels := 2;
      sampleFormat := SampleFormatS16;  // bitsPerSample is not 8
      numberOfChannels := nChannels;
      samplingFreq := sFreq;
      extraDelayInMillisec := 0;
      openedGO, cbLock := false, false;
      buf := null;
      bufTotalSize, bufFreeSize, bufUnsubmittedSize := 0, 0, 0;
      bufSubmittedHead, bufUnsubmittedHead := 0, 0;
      Contents := [];
      haveGO := true;
      DefaultSampleSize();
    }

    /** `isAvailable()`: whether the output could be set up. */
    function IsAvailable(): (r: bool)
      reads this
      ensures r == haveGO
    {
      haveGO
    }

    /** `isOpened()`: whether the store is allocated and the device started. */
    function IsOpened(): (r: bool)
      reads this
      ensures r == openedGO
    {
      openedGO
    }

    function GetSampleFormat(): (r: nat)
      ensures r == sampleFormat
    {
      sampleFormat
    }

    function GetNumberOfChannels(): (r: nat)
      ensures r == numberOfChannels
    {
      numberOfChannels
    }

    function GetSamplingFreq(): (r: nat)
      ensures r == samplingFreq
    {
      samplingFreq
    }

    /** `getSampleSize()`: bytes per frame, the channel count times the width of one sample. */
    function GetSampleSize(): (r: nat)
      ensures IsSampleFormat(sampleFormat) ==> r == numberOfChannels * BytesPerChannel(sampleFormat)
    {
      SampleSize(numberOfChannels, sampleFormat)
    }

    /**
      The allocation half of `openAndAllocateBuffer`: sizes the store to the
      smallest power of two of frames that holds four times the maximum
      network jitter, allocates it zeroed and resets the cursors and counters.
      A failed allocation stores a null pointer and leaves the counters as
      they were.
     */
    method AllocateBuffer(allocOk: bool) returns (ok: bool)
      requires Valid() && !openedGO
      modifies this
      ensures Valid() && !openedGO && ok == allocOk
      ensures haveGO == old(haveGO) && cbLock == old(cbLock) && frameBytes == old(frameBytes)
      ensures !allocOk ==>
        buf == null &&
        bufTotalSize == old(bufTotalSize) && bufFreeSize == old(bufFreeSize) &&
        bufUnsubmittedSize == old(bufUnsubmittedSize) && Contents == old(Contents) &&
        bufSubmittedHead == old(bufSubmittedHead) && bufUnsubmittedHead == old(bufUnsubmittedHead)
      ensures allocOk ==>
        buf != null && fresh(buf) && AllZero(buf) &&
        bufTotalSize == LeastPowerOfTwoAtLeast(BufferEstimate(samplingFreq)) * GetSampleSize() &&
        bufFreeSize == bufTotalSize && bufUnsubmittedSize == 0 &&
        bufSubmittedHead == 0 && bufUnsubmittedHead == 0 && Contents == []
    {
      var estimate := BufferEstimate(samplingFreq);
      var allocFrames := BufferFrameCount(estimate);
      var sampleSize := GetSampleSize();
      if !allocOk {
        // calloc returned NULL, which is stored in bufPtr
        buf := null;
        return false;
      }
      LeastPowerOfTwoUnique(allocFrames, LeastPowerOfTwoAtLeast(estimate), estimate);
      var total := allocFrames * sampleSize;
      PowerOfTwoProduct(allocFrames, sampleSize);
      var store := new byte[total](_ => 0);
      assert AllZero(store);
      UseStore(store);
      return true;
    }

    /**
      The reset after a successful `calloc`: the zeroed `store` becomes the
      buffer, all of it free, with both cursors at its start.
     */
    method UseStore(store: array<byte>)
      requires Valid() && !openedGO && IsPowerOfTwo(store.Length)
      modifies this
      ensures Valid() && !openedGO
      ensures haveGO == old(haveGO) && cbLock == old(cbLock) && frameBytes == old(frameBytes)
      ensures buf == store && bufTotalSize == store.Length && bufFreeSize == store.Length
      ensures bufUnsubmittedSize == 0 && bufSubmittedHead == 0 && bufUnsubmittedHead == 0 && Contents == []
    {
      assert store.Length > 0;
      buf := store;
      bufTotalSize, bufFreeSize := store.Length, store.Length;
      bufUnsubmittedSize, bufSubmittedHead, bufUnsubmittedHead := 0, 0, 0;
      Contents := [];
    }

    /**
      Allocates the store and starts the device. Refuses (changing nothing)
      when the output is unavailable or already open. A failed allocation
      leaves a null store; a device that fails to initialise or start leaves
      the fresh, reset store in place with the output still closed.
     */
    method OpenAndAllocateBuffer(allocOk: bool, deviceInitOk: bool, deviceStartOk: bool) returns (ok: bool)
      requires Valid()
      modifies this
      ensures Valid()
      ensures ok <==> old(haveGO) && !old(openedGO) && allocOk && deviceInitOk && deviceStartOk
      ensures openedGO == (old(openedGO) || ok)
      ensures haveGO == old(haveGO) && cbLock == old(cbLock) && frameBytes == old(frameBytes)
      ensures !old(haveGO) || old(openedGO) ==> unchanged(this)
      ensures old(haveGO) && !old(openedGO) && !allocOk ==>
        buf == null &&
        bufTotalSize == old(bufTotalSize) && bufFreeSize == old(bufFreeSize) &&
        bufUnsubmittedSize == old(bufUnsubmittedSize) && Contents == old(Contents) &&
        bufSubmittedHead == old(bufSubmittedHead) && bufUnsubmittedHead == old(bufUnsubmittedHead)
      ensures old(haveGO) && !old(openedGO) && allocOk ==>
        buf != null && fresh(buf) && AllZero(buf) &&
        bufTotalSize == LeastPowerOfTwoAtLeast(BufferEstimate(samplingFreq)) * GetSampleSize() &&
        bufFreeSize == bufTotalSize && bufUnsubmittedSize == 0 &&
        bufSubmittedHead == 0 && bufUnsubmittedHead == 0 && Contents == []
    {
      if !haveGO {
        return false;
      }
      if openedGO {
        return false;
      }
      var stored := AllocateBuffer(allocOk);
      if !stored {
        return false;
      }
      // ma_device_init and ma_device_start
      if !deviceInitOk {
        return false;
      }
      if !deviceStartOk {
        return false;
      }
      assert buf != null && bufTotalSize > 0 && Contents == [];
      assert Holds(buf, bufSubmittedHead, bufTotalSize, Contents);
      openedGO := true;
      return true;
    }

    /**
      One producer copy into the open store (the body of the copy loops of
      `addSamples` and `addSilentSamples`): appends as many bytes of `src` as
      fit in the free space to the queue and drops the rest.
     */
    method Enqueue(src: seq<byte>) returns (copied: nat)
      requires Valid() && openedGO
      modifies this, buf
      ensures Valid() && copied == Min(|src|, old(bufFreeSize))
      ensures Contents == old(Contents) + src[..copied]
      ensures bufFreeSize == old(bufFreeSize) - copied && bufUnsubmittedSize == old(bufUnsubmittedSize) + copied
      ensures buf == old(buf) && bufTotalSize == old(bufTotalSize) && bufSubmittedHead == old(bufSubmittedHead)
      ensures haveGO == old(haveGO) && openedGO == old(openedGO)
      ensures cbLock == old(cbLock) && frameBytes == old(frameBytes)
    {
      var head, free, unsub;
      ghost var runs;
      head, free, unsub, copied, runs :=
        QueueBytes(buf, bufTotalSize, bufSubmittedHead, bufUnsubmittedHead, bufFreeSize, bufUnsubmittedSize,
                   src, Contents);
      HoldsAppend(buf, bufSubmittedHead, bufTotalSize, Contents, src, copied);
      ghost var queued := Contents + src[..copied];
      assert Holds(buf, bufSubmittedHead, bufTotalSize, queued);
      bufUnsubmittedHead, bufFreeSize, bufUnsubmittedSize := head, free, unsub;
      Contents := queued;
    }

    /**
      Queues `numberOfSamples` frames of silence, as many bytes of it as fit
      in the free space; does nothing while the output is not open.
     */
    method AddSilentSamples(numberOfSamples: nat)
      requires Valid()
      modifies this, buf
      ensures Valid()
      ensures buf == old(buf) && bufTotalSize == old(bufTotalSize) && bufSubmittedHead == old(bufSubmittedHead)
      ensures haveGO == old(haveGO) && openedGO == old(openedGO)
      ensures cbLock == old(cbLock) && frameBytes == old(frameBytes)
      ensures openedGO ==>
        var added := Min(numberOfSamples * GetSampleSize(), old(bufFreeSize));
        Contents == old(Contents) + Fill(SilenceByte(sampleFormat), added) &&
        bufFreeSize == old(bufFreeSize) - added &&
        bufUnsubmittedSize == old(bufUnsubmittedSize) + added
      ensures !openedGO ==> unchanged(this) && (buf != null ==> unchanged(buf))
    {
      if openedGO {
        var bytesLeftToAdd: nat := numberOfSamples * GetSampleSize();
        // memset of the silence byte: a run of silence bytes is queued
        var silence := Fill(SilenceByte(sampleFormat), bytesLeftToAdd);
        var added := Enqueue(silence);
        assert silence[..added] == Fill(SilenceByte(sampleFormat), added);
      }
    }

    /**
      Queues the bytes of `data`. Sheds the whole call while more than five of
      the device's latest periods are already queued; otherwise, if the output
      is open, appends as many bytes as fit and drops the rest. Always reports
      every byte as taken.
     */
    method AddSamples(data: seq<byte>) returns (taken: nat)
      requires Valid()
      modifies this, buf
      ensures Valid()
      ensures taken == |data|
      ensures buf == old(buf) && bufTotalSize == old(bufTotalSize) && bufSubmittedHead == old(bufSubmittedHead)
      ensures haveGO == old(haveGO) && openedGO == old(openedGO) && frameBytes == old(frameBytes)
      ensures old(bufUnsubmittedSize) > frameBytes * 5 ==> unchanged(this) && (buf != null ==> unchanged(buf))
      ensures old(bufUnsubmittedSize) <= frameBytes * 5 ==> !cbLock
      ensures old(bufUnsubmittedSize) <= frameBytes * 5 && openedGO ==>
        var added := Min(|data|, old(bufFreeSize));
        Contents == old(Contents) + data[..added] &&
        bufFreeSize == old(bufFreeSize) - added &&
        bufUnsubmittedSize == old(bufUnsubmittedSize) + added
      ensures !openedGO ==>
        Contents == old(Contents) && bufFreeSize == old(bufFreeSize) &&
        bufUnsubmittedSize == old(bufUnsubmittedSize) && bufUnsubmittedHead == old(bufUnsubmittedHead) &&
        (buf != null ==> unchanged(buf))
    {
      // unsubmitted buffer drain
      if bufUnsubmittedSize > frameBytes * 5 {
        return |data|;
      }
      cbLock := true;
      if openedGO {
        var copied := Enqueue(data);
      }
      cbLock := false;
      return |data|;
    }

    /** On a stream start, queues the silence pre-roll; a stop does nothing. */
    method NotifyStreamingStartStop(isStart: bool)
      requires Valid()
      modifies this, buf
      ensures Valid()
      ensures buf == old(buf) && bufTotalSize == old(bufTotalSize) && bufSubmittedHead == old(bufSubmittedHead)
      ensures haveGO == old(haveGO) && openedGO == old(openedGO)
      ensures cbLock == old(cbLock) && frameBytes == old(frameBytes)
      ensures !isStart || !openedGO ==> unchanged(this) && (buf != null ==> unchanged(buf))
      ensures isStart && openedGO ==>
        var added := Min(PreRollFrames(extraDelayInMillisec, samplingFreq) * GetSampleSize(), old(bufFreeSize));
        Contents == old(Contents) + Fill(SilenceByte(sampleFormat), added) &&
        bufFreeSize == old(bufFreeSize) - added &&
        bufUnsubmittedSize == old(bufUnsubmittedSize) + added
    {
      if isStart {
        // 20+ milliseconds of silence ahead of the samples absorb network jitter
        var delayInMillisec := 20 + extraDelayInMillisec;
        AddSilentSamples(delayInMillisec * samplingFreq / 1000);
      }
    }

    /**
      One consumer copy out of the store (the copy loop of the device
      callback): moves the `count` oldest queued bytes, in order, to the front
      of `output` and frees their slots.
     */
    method Dequeue(output: array<byte>, count: nat)
      requires Valid() && openedGO && output != buf
      requires count <= bufUnsubmittedSize && count <= output.Length
      modifies this, output
      ensures Valid()
      ensures CopiedOut(output, old(Contents), count, old(output[..]))
      ensures Contents == old(Contents)[count..]
      ensures bufFreeSize == old(bufFreeSize) + count && bufUnsubmittedSize == old(bufUnsubmittedSize) - count
      ensures bufSubmittedHead == Slot(old(bufSubmittedHead), count, bufTotalSize)
      ensures buf == old(buf) && bufTotalSize == old(bufTotalSize) && bufUnsubmittedHead == old(bufUnsubmittedHead)
      ensures haveGO == old(haveGO) && openedGO == old(openedGO)
      ensures cbLock == old(cbLock) && frameBytes == old(frameBytes)
    {
      ghost var head0, queued := bufSubmittedHead, Contents;
      var sub, free, unsub;
      ghost var runs;
      sub, free, unsub, runs :=
        DequeueBytes(buf, bufTotalSize, bufSubmittedHead, bufFreeSize, bufUnsubmittedSize, output, count, Contents);
      DropKeepsInvariant(buf, bufTotalSize, bufFreeSize, bufUnsubmittedSize, head0, bufUnsubmittedHead, queued, count);
      bufSubmittedHead, bufFreeSize, bufUnsubmittedSize := sub, free, unsub;
      Contents := queued[count..];
    }

    /**
      The device callback: copies the oldest queued bytes, at most one period
      of `frameCount` frames, to the front of `output`, and frees them. With
      nothing queued it returns at once and leaves everything, `frameBytes`
      included, as it was.
     */
    method Pull(output: array<byte>, frameCount: nat, bytesPerFrame: nat)
      requires Valid()
      requires output != buf
      requires frameCount * bytesPerFrame <= output.Length
      modifies this, output
      ensures Valid()
      ensures buf == old(buf) && bufTotalSize == old(bufTotalSize) && bufUnsubmittedHead == old(bufUnsubmittedHead)
      ensures haveGO == old(haveGO) && openedGO == old(openedGO) && cbLock == old(cbLock)
      ensures old(bufUnsubmittedSize) == 0 ==> unchanged(this) && unchanged(output)
      ensures old(bufUnsubmittedSize) > 0 ==>
        frameBytes == frameCount * bytesPerFrame &&
        var taken := Min(old(bufUnsubmittedSize), frameBytes);
        CopiedOut(output, old(Contents), taken, old(output[..])) &&
        Contents == old(Contents)[taken..] &&
        bufFreeSize == old(bufFreeSize) + taken &&
        bufUnsubmittedSize == old(bufUnsubmittedSize) - taken &&
        bufSubmittedHead == Slot(old(bufSubmittedHead), taken, bufTotalSize)
    {
      if bufUnsubmittedSize == 0 {
        return;
      }
      frameBytes := frameCount * bytesPerFrame;
      var ioBytes: nat := bufUnsubmittedSize;
      if ioBytes > frameBytes {
        ioBytes := frameBytes;
      }
      Dequeue(output, ioBytes);
    }
  }

  /**
    The cursors stay inside the store, and the write cursor sits the queued
    byte count ahead of the read cursor, modulo the store size.
   */
  lemma CursorsInRange(g: GenericAudioOutput)
    requires g.Valid() && g.bufTotalSize > 0
    ensures g.bufSubmittedHead < g.bufTotalSize && g.bufUnsubmittedHead < g.bufTotalSize
    ensures g.bufUnsubmittedHead == (g.bufSubmittedHead + g.bufUnsubmittedSize) % g.bufTotalSize
  {
    WrapIsModulo(g.bufSubmittedHead + g.bufUnsubmittedSize, g.bufTotalSize);
  }
}
