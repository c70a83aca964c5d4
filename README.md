# Jitter buffer of the generic audio output

A Dafny model of the audio output of the VNC viewer (`GenericAudioOutput`).
At its core is a jitter buffer, a circular byte store that sits between two
sides:

- The network side (`addSamples`, and the silence queued by
  `addSilentSamples` and `notifyStreamingStartStop`) writes into it.
- The playback device's callback (`audioOutCallback`) reads from it, at most
  one device period at a time.

The store holds a power-of-two number of frames. Its size is therefore a power
of two, and the cursors wrap round with the mask `& (bufTotalSize - 1)`.

The model has five files:

- `Bits.dfy` (module `Bits`):
  - unsigned bytes;
  - powers of two;
  - bitwise `&` and `<<` on naturals;
  - the proof that `x & (n - 1)` is `x % n` for a power of two `n`;
  - the least power of two that reaches a bound.
- `AudioFormat.dfy` (module `AudioFormat`) covers the header's constants:
  - the maximum network jitter;
  - the six sample-format codes;
  - `getSampleSize()`.
- `Ring.dfy` (module `Ring`) is the cursor arithmetic of the store:
  - `Wrap` and `Slot` say where the `i`-th queued byte lives.
  - `Holds` says that the store holds a byte sequence from the read cursor on.
- `GenericAudioOutput.dfy` (module `GenericAudio`) has three parts:
  - The class `GenericAudioOutput` has the fields of the C++ class. A ghost
    sequence `Contents` holds the queued (unsubmitted) bytes, oldest first,
    so that first-in-first-out order can be stated.
  - The copy loops are methods over the store `array<byte>`.
  - The sizing loop is a method on its own.
- `Scenario.dfy` (module `AudioScenario`) is a client. It plays one session
  with the constructor's defaults:
  - The device first hears the 441 silent frames of the pre-roll.
  - It then hears the network bytes in arrival order.

`Valid()` is the class invariant and holds between all calls. It says:

- free plus queued bytes is the store size;
- the store size is a power of two;
- the read cursor is inside the store;
- the write cursor is the queued count past the read cursor, modulo the size;
- nothing is queued while the output is not open;
- while open, the store holds `Contents` from the read cursor on.

Every mutating operation takes `Valid()` and gives it back. `CursorsInRange`
then gives the C++ form of the cursor relation, which uses `%`.

The accessors (`isAvailable`, `isOpened` and the getters) are Dafny functions,
so they cannot change state.

The playback device is outside the model:

- Whether `calloc`, `ma_device_init` and `ma_device_start` succeed are boolean
  parameters of `OpenAndAllocateBuffer`.
- `ma_get_bytes_per_frame` of the device format is the `bytesPerFrame`
  parameter of `Pull`.
- The device's output buffer is an `array<byte>` of at least one period.

The code departs from a clean open-and-close lifecycle:

- The code has no `close`. The destructor acts only while `openedGO` is
  set: it clears `openedGO`, uninitialises the device and frees the store.
  A store left in place by a failed device init or start is never freed.
- `openAndAllocateBuffer` is not all-or-nothing:
  - A failed `calloc` overwrites `bufPtr` with null and leaves the counters
    as they were.
  - A device that fails to initialise or start leaves the fresh, reset store
    in place while the output stays closed.
- `frameBytes` is never initialised by the constructor. So `addSamples` after
  the pre-roll but before the first callback compares the queued count with
  five times an unset value. In the model `frameBytes` starts unconstrained.
  The client therefore lets the device take a period before it queues
  network samples.
- The silence byte is `0x80` for unsigned 8-bit samples and `0` for every
  other format, the unsigned 16- and 32-bit formats included, as the code
  writes it.

## Model

| member | source | states |
|---|---|---|
| Bits.MaskIsModulo | vncviewer/GenericAudioOutput.cxx:81 | for a power-of-two `n`, `x & (n - 1)` equals `x % n` for every `x` |
| Ring.MaskedAdvance | vncviewer/GenericAudioOutput.cxx:178 | a cursor advanced by a copy that stops at the end of the store and then masked is the advanced position modulo the size, is `Wrap` of it, and is inside the store |
| GenericAudio.AdvanceCursor | vncviewer/GenericAudioOutput.cxx:150 | the masked cursor update computes `Wrap(head + count, total)` |
| Ring.WrapIsModulo | vncviewer/GenericAudioOutput.cxx:81 | on the positions the loops reach, `Wrap` is reduction modulo the store size and lands inside the store |
| Ring.SlotAdvance | vncviewer/GenericAudioOutput.cxx:81 | moving a cursor `d` slots and then `i` more is moving it `d + i` slots |
| Bits.PowerOfTwoProduct | vncviewer/GenericAudioOutput.cxx:111 | a product of two powers of two is a power of two, so frames times sample size gives a power-of-two store |
| Bits.LeastPowerOfTwoAtLeast | vncviewer/GenericAudioOutput.cxx:101-103 | reference definition: the result is a power of two that reaches the bound while its half does not |
| Bits.LeastPowerOfTwoIsMinimal | vncviewer/GenericAudioOutput.cxx:101-103 | no power of two that reaches the bound is below the least one |
| Bits.LeastPowerOfTwoUnique | vncviewer/GenericAudioOutput.cxx:101-103 | the least power of two reaching a bound is unique |
| GenericAudio.BufferFrameCount | vncviewer/GenericAudioOutput.cxx:101-103 | the doubling loop ends with the smallest power of two at least the estimate |
| GenericAudio.BufferEstimate | vncviewer/GenericAudioOutput.cxx:99 | `4 * 1000 * samplingFreq / 1000` frames is exactly four frames per hertz of sampling rate |
| GenericAudio.DefaultSizing | vncviewer/GenericAudioOutput.cxx:99-111 | at 22050 Hz stereo 16-bit: estimate 88200 frames, rounded to 131072 frames, 524288 bytes, and a pre-roll of 441 frames |
| Bits.BitAnd | vncviewer/GenericAudioOutput.cxx:81 | C's `&` on unsigned integers: the result is no larger than either operand |
| Bits.ShiftLeft | vncviewer/GenericAudioOutput.h:50 | C's `<<` on an unsigned integer that loses no bits: `x << k` is `x * 2^k` |
| AudioFormat.BytesPerChannel | vncviewer/GenericAudioOutput.h:36-41 | reference table of 1, 2 or 4 bytes per channel by format pair, always a power of two |
| AudioFormat.SampleSize | vncviewer/GenericAudioOutput.h:50 | `numberOfChannels << (sampleFormat >> 1)` is the channel count times the reference width for every defined format |
| AudioFormat.SampleSizePowerOfTwo | vncviewer/GenericAudioOutput.h:50 | a power-of-two channel count gives a power-of-two frame size of at least that many bytes, whatever the format code |
| AudioFormat.SampleFormatsPaired | vncviewer/GenericAudioOutput.h:36-41 | the format codes are exactly 0 to 5, and `code >> 1` selects the width shared by each unsigned/signed pair |
| AudioFormat.DefaultSampleSize | vncviewer/GenericAudioOutput.cxx:45-51 | the constructor's 16-bit stereo format takes 4 bytes per frame, a power of two |
| GenericAudio.GenericAudioOutput.constructor | vncviewer/GenericAudioOutput.cxx:39-55 | the output is available, not open, signed 16-bit stereo at 22050 Hz with no extra delay, no store and all counters zero; the invariant holds |
| GenericAudio.GenericAudioOutput.IsAvailable | vncviewer/GenericAudioOutput.h:46 | returns `haveGO`; a function, so it changes no state |
| GenericAudio.GenericAudioOutput.GetSampleFormat | vncviewer/GenericAudioOutput.h:47 | returns the sample-format code; a function, so it changes no state |
| GenericAudio.GenericAudioOutput.GetNumberOfChannels | vncviewer/GenericAudioOutput.h:48 | returns the channel count; a function, so it changes no state |
| GenericAudio.GenericAudioOutput.GetSamplingFreq | vncviewer/GenericAudioOutput.h:49 | returns the sampling rate; a function, so it changes no state |
| GenericAudio.GenericAudioOutput.GetSampleSize | vncviewer/GenericAudioOutput.h:50 | for every defined format, the frame size is the channel count times the bytes of one sample |
| GenericAudio.GenericAudioOutput.IsOpened | vncviewer/GenericAudioOutput.h:53 | returns `openedGO`; a function, so it changes no state |
| GenericAudio.GenericAudioOutput.AllocateBuffer | vncviewer/GenericAudioOutput.cxx:99-112 | a failed allocation leaves a null store and the counters unchanged; a successful one gives a fresh zeroed store of the least power of two of frames reaching the estimate times the frame size, all free, with both cursors at 0 |
| GenericAudio.GenericAudioOutput.UseStore | vncviewer/GenericAudioOutput.cxx:111-112 | the reset after allocation: the whole store is free, nothing is queued, both cursors are 0, and the invariant holds |
| GenericAudio.GenericAudioOutput.OpenAndAllocateBuffer | vncviewer/GenericAudioOutput.cxx:90-134 | succeeds exactly when the output is available, not open, and allocation, device init and device start all succeed; refusing changes nothing; the store is sized and reset as above; a device failure leaves it in place, closed |
| GenericAudio.RunLength | vncviewer/GenericAudioOutput.cxx:168-175 | one producer copy moves no more than is left, than is free, or than fits before the end of the store, and reaches one of the three; it is zero exactly when one of them is |
| GenericAudio.CopyRun | vncviewer/GenericAudioOutput.cxx:177 | one `memcpy` writes the next source bytes into the slots after the queued ones and leaves the queued bytes' slots alone |
| Ring.RunMissesQueued | vncviewer/GenericAudioOutput.cxx:172-177 | a run written from the write cursor, within the free space and before the end of the store, misses every occupied slot |
| Ring.HoldsAppend | vncviewer/GenericAudioOutput.cxx:177-180 | bytes written after the queued ones extend the held queue by exactly those bytes |
| GenericAudio.QueueBytes | vncviewer/GenericAudioOutput.cxx:166-183 | the copy loop writes exactly `min(|src|, free)` bytes, the first ones of `src`, after the queued ones, in at most two runs; the counters and the write cursor move accordingly |
| GenericAudio.GenericAudioOutput.Enqueue | vncviewer/GenericAudioOutput.cxx:165-184 | the queue becomes the old queue followed by the first `min(|src|, free)` bytes of `src`; free and queued counts move by that amount; the read cursor and the store stay |
| GenericAudio.GenericAudioOutput.AddSamples | vncviewer/GenericAudioOutput.cxx:158-188 | always reports `|data|`; with more than five periods queued nothing changes; otherwise, when open, appends `data[..min(|data|, free)]` in order; when closed, the queue and counters stay; the lock flag is clear afterwards |
| GenericAudio.SilenceByte | vncviewer/GenericAudioOutput.cxx:149 | the fill byte is `0x80` exactly for unsigned 8-bit samples and `0` for every other format |
| Ring.Fill | vncviewer/GenericAudioOutput.cxx:149 | `memset`: `n` copies of the byte |
| GenericAudio.GenericAudioOutput.AddSilentSamples | vncviewer/GenericAudioOutput.cxx:136-156 | when open, appends `min(n * frameSize, free)` silence bytes (0x80 for unsigned 8-bit, 0 otherwise); when closed, changes nothing |
| GenericAudio.PreRollFrames | vncviewer/GenericAudioOutput.cxx:195-196 | the pre-roll is `(20 + extra)` milliseconds of frames, rounded down |
| GenericAudio.GenericAudioOutput.NotifyStreamingStartStop | vncviewer/GenericAudioOutput.cxx:190-198 | a start on an open output appends `min(preRoll * frameSize, free)` silence bytes; a stop, or any call while closed, changes nothing |
| GenericAudio.ReadRunLength | vncviewer/GenericAudioOutput.cxx:73-78 | one consumer copy moves no more than is left or than fits before the end of the store, and reaches one of them; it is zero exactly when nothing is left or the cursor is at the end |
| GenericAudio.CopyOut | vncviewer/GenericAudioOutput.cxx:80 | one `memcpy` delivers the next queued bytes, in order, after those already delivered, and leaves the rest of the output as it was |
| GenericAudio.DequeueBytes | vncviewer/GenericAudioOutput.cxx:70-86 | the callback's copy loop delivers the `ioBytes` oldest queued bytes, in order, to the front of the output in at most two runs; the rest of the output is untouched; the read cursor moves `ioBytes` slots and the counters move by `ioBytes` |
| Ring.HoldsDrop | vncviewer/GenericAudioOutput.cxx:81-84 | after the read cursor moves past the `d` oldest bytes, the store still holds the rest of the queue |
| GenericAudio.DropKeepsInvariant | vncviewer/GenericAudioOutput.cxx:81-85 | freeing the `count` oldest bytes keeps the store invariant, with the read cursor `count` slots on and the queue shortened at its front |
| GenericAudio.GenericAudioOutput.Dequeue | vncviewer/GenericAudioOutput.cxx:66-86 | the output's first `count` bytes are the oldest queued bytes; the queue loses exactly them; free grows by `count`; the read cursor moves `count` slots; the write cursor stays |
| GenericAudio.GenericAudioOutput.Pull | vncviewer/GenericAudioOutput.cxx:57-88 | with nothing queued, nothing changes, `frameBytes` and the output included; otherwise `frameBytes` becomes `frameCount * bytesPerFrame`, and the `min(queued, frameBytes)` oldest bytes are delivered in order and freed |
| GenericAudio.CursorsInRange | vncviewer/GenericAudioOutput.cxx:178 | in a valid output with a store, both cursors are inside it, and the write cursor is `(read cursor + queued) % size` |
| AudioScenario.OpenDefault | vncviewer/GenericAudioOutput.cxx:99-112 | a default output opens with an empty 524288-byte store |
| AudioScenario.PlayPreRoll | vncviewer/GenericAudioOutput.cxx:190-198 | after a stream start, one 441-frame callback receives 1764 zero bytes and empties the queue |
| AudioScenario.PlayPeriod | vncviewer/GenericAudioOutput.cxx:61-86 | a 441-frame callback with a period queued receives the oldest 1764 queued bytes and removes them from the queue |
| AudioScenario.PlaybackSession | vncviewer/GenericAudioOutput.cxx:190-198 | the device gets the silence pre-roll first and then the network bytes in arrival order, one 1764-byte period per callback |

## Left out

- The miniaudio device: `ma_device_config_init`, the device configuration
  (signed 16-bit, 20 ms period, the callback and its user pointer),
  `ma_device_init`, `ma_device_start`, `ma_device_uninit` and
  `ma_get_bytes_per_frame`. These are foreign library calls. Their success
  and the bytes per frame are parameters.
- The destructor, which acts only while `openedGO` is set and then clears
  it, calls `ma_device_uninit` and `free`. Memory release, the store never
  freed after a failed device init or start, and the store leaked by a second
  `calloc` after such a failure are not modelled.
- Concurrency between the producer and the device thread. The calls are
  sequential. `cbLock` is set and cleared as the code does, and nothing
  reads it.
- Enqueue: the copy loops keep the cursor and counters in locals and store
  them into the fields once, after the loop. The code writes the fields on
  every pass, which only a concurrent callback could tell apart.
- Dequeue: the same local-copy shape as `Enqueue`, for the callback's loop.
- AddSilentSamples: the `memset` loop is modelled as queueing a run of
  silence bytes through the same copy loop as `addSamples`. The two C++ loops
  have the same clamping and cursor updates.
- AddSilentSamples: the byte count `numberOfSamples * getSampleSize()` is an
  unbounded product. Its `size_t` wrap-around is not modelled: for example,
  2^62 frames of 4 bytes wrap to 0 in C++ and queue nothing there.
- AddSamples: the overrun guard `frameBytes * 5` is computed on mathematical
  integers. The 32-bit wrap-around of `ma_uint32` is not modelled.
- Pull: `frameCount * bytesPerFrame` is stored in `frameBytes` without
  `ma_uint32` truncation. The output buffer must hold one period of bytes,
  which the device layer guarantees.
- OpenAndAllocateBuffer: the sizing products in `size_t` are unbounded
  integers. No wrap-around is modelled.
- `UserDialog.cxx` is not part of this model. It is user-interface code.
