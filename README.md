# vgmp native playback glue, modelled in Dafny

vgmp is an Android player for VGM chiptune files. The file
`app/src/main/cpp/vgmplayer_jni.cpp` holds the native methods of its
`VgmEngine` class, and it sits between the Kotlin UI and libvgm's `VGMPlayer`.
That file keeps one process-wide session:

- the player and its data loader;
- the sample rate and the ROM directory set by the UI;
- a 1024-slot ring of recent mono samples, which feeds the spectrum display.

This project models that session and its entry points in Dafny, and proves
what each entry point does to the session and what it returns.

Modules, one file each:

- `Engine` (`engine.dfy`): the `Session` class. Its fields are the C++ globals
  (`gPlayer`, `gLoader`, `gSampleRate`, `gRomPath`, `gFftRingBuffer`,
  `gFftWriteIdx`, the static render buffer). Its methods are the entry points:
  - session control: `cleanup`, `nOpen`, `nClose`, `nPlay`, `nStop`, `nSeek`,
    `nSetSampleRate`, `nSetRomPath`;
  - queries: `nIsEnded`, the sample counters, `nGetTags`, the device queries,
    `nGetTrackLengthDirect`;
  - audio: `nFillBuffer`, and the integer phase of `nGetSpectrum`.

  `Valid()` is the session invariant: at most one player, owned together with
  its loader, and no other native object alive. A ghost set `live` tracks the
  native objects that are allocated. The invariant is what makes "a failed open
  leaves nothing behind" a checked statement.
- `Pcm` (`pcm.dfy`): the fixed-width integer types and the two casts that
  change a value, `(UINT32)` of a signed value and `(jint)` of an unsigned one. It also holds the conversion of libvgm's 24-bit fixed-point samples
  to int16 (`>> 8`, then two saturating `if`s), the interleaved output stream,
  and the mono value fed to the ring.
- `Ring` (`ring.dfy`): the ring as a value. It covers where a run of frames
  lands, the `(idx + 1) % FFT_SIZE` index, and the rotated snapshot that
  `nGetSpectrum` reads (oldest sample first).
- `BitReverse` (`bitreverse.dfy`): the first phase of `fft_process`, the
  in-place bit-reversal swap pass. Its inner loop performs a reversed binary
  increment.
- `Tags` (`tags.dfy`): the `"|||"`-terminated tag string, with a splitter
  that inverts it.
- `Devices` (`devices.dfy`): the device list, the distinct-id count, the first
  match by id behind the name and volume queries, and the effect of setting a
  volume.
- `RomPath` (`rompath.dfy`): how `RequestFileCallback` picks a file, and how it
  joins the ROM directory and the file name.
- `Libvgm` (`libvgm.dfy`): stand-ins for `DATA_LOADER` and `VGMPlayer`.
  - They fix only what the glue relies on.
  - `Start` leaves the play position and the end flag arbitrary, and
    `SetSampleRate` is promised to take effect only on a stopped player;
    a ghost field `rateRequests` records every rate handed to it.
  - `Render` returns at most the frames asked for. The frames, the play
    position and the end flag are left arbitrary. Two ghost fields record
    every call: `renders` holds the frames asked for and got, `output` the
    frames delivered. The glue's requests and output are stated against them.
  - The file system is a map from path to content. A missing path makes
    `DataLoader_Load` fail. An `Unparsable` entry makes `LoadFile` fail.
  - Whether `FileLoader_Init` allocates is a boolean parameter.
- `Options` (`options.dfy`): an option type for C null pointers.

`nGetSpectrum` computes the largest magnitude (`maxMag`, lines 340-345 of
`vgmplayer_jni.cpp`) but never rescales the magnitudes by it, so the values
handed to the UI are the raw FFT magnitudes. The magnitudes are floating point
and the model leaves them out altogether.

## Model

| member | source | states |
|---|---|---|
| Pcm.ToInt32 | app/src/main/cpp/vgmplayer_jni.cpp:456 | `(jint)x` equals x exactly for values in the signed range, and otherwise differs from x by a multiple of 2^32, so volumes from 2^31 up come out negative |
| Pcm.SignedRoundTrip | app/src/main/cpp/vgmplayer_jni.cpp:456-465 | casting a jint to `UINT32` and back gives the jint back |
| Pcm.UnsignedRoundTrip | app/src/main/cpp/vgmplayer_jni.cpp:456-465 | casting a `UINT32` to jint and back gives the `UINT32` back |
| Pcm.ToUint32 | app/src/main/cpp/vgmplayer_jni.cpp:122 | `(UINT32)x` equals x exactly for values already in range, and otherwise differs from x by a multiple of 2^32 (wrap-around, not clamping) |
| Pcm.Saturate16 | app/src/main/cpp/vgmplayer_jni.cpp:282-289 | the two sequential `if`s keep in-range values, send values above 32767 to 32767 and values below -32768 to -32768 |
| Pcm.ToPcm16 | app/src/main/cpp/vgmplayer_jni.cpp:280-289 | `>> 8` followed by the two saturating `if`s; what it computes is stated by Pcm.ToPcm16Exact, Pcm.ToPcm16Saturates and Pcm.ToPcm16Monotone |
| Pcm.ToPcm16Exact | app/src/main/cpp/vgmplayer_jni.cpp:280-289 | within the int16 range the converted sample r is floor(x / 256): r*256 <= x < r*256 + 256 |
| Pcm.ToPcm16Saturates | app/src/main/cpp/vgmplayer_jni.cpp:280-289 | inputs at or above 32768*256 give 32767, inputs below -32768*256 give -32768: saturation, not wrap-around |
| Pcm.ToPcm16Monotone | app/src/main/cpp/vgmplayer_jni.cpp:280-289 | a louder input never yields a quieter output, so the sign never flips |
| Pcm.Mono | app/src/main/cpp/vgmplayer_jni.cpp:294 | the value fed to the ring is the sum of the two clamped channels, and it lies within twice the int16 range |
| Pcm.MonosAt | app/src/main/cpp/vgmplayer_jni.cpp:294 | mono value t of a run is the mono mix of frame t |
| Pcm.MonosAppend | app/src/main/cpp/vgmplayer_jni.cpp:278-296 | the mono values of two runs are those of the first run followed by those of the second |
| Pcm.Interleave | app/src/main/cpp/vgmplayer_jni.cpp:290-291 | the output stream of a run of frames, two samples per frame; where each sample sits is stated by Pcm.InterleaveAt and how runs compose by Pcm.InterleaveAppend |
| Pcm.Monos | app/src/main/cpp/vgmplayer_jni.cpp:294 | the ring values of a run of frames, one per frame; Pcm.MonosAt and Pcm.MonosAppend state their contents |
| Pcm.InterleaveAt | app/src/main/cpp/vgmplayer_jni.cpp:290-291 | frame t's clamped left sample sits at index 2t and its right sample at 2t+1 |
| Pcm.InterleaveAppend | app/src/main/cpp/vgmplayer_jni.cpp:278-298 | interleaving two runs gives the interleaving of the first followed by that of the second, so chunks compose |
| Ring.Write | app/src/main/cpp/vgmplayer_jni.cpp:294-295 | a run of values stored from a start index onwards, wrapping around, in a ring that keeps its 1024 slots; Ring.WriteAt and Ring.SlotHits state which slot holds what |
| Ring.Next | app/src/main/cpp/vgmplayer_jni.cpp:295 | `(idx + 1) % FFT_SIZE` stays a valid slot |
| Ring.WriteSnoc | app/src/main/cpp/vgmplayer_jni.cpp:294-295 | one more frame changes exactly one slot, the one after the last slot written |
| Ring.Slot | app/src/main/cpp/vgmplayer_jni.cpp:295 | the index reached after t steps always stays within the 1024 slots |
| Ring.SlotIsMod | app/src/main/cpp/vgmplayer_jni.cpp:295 | t steps of `(idx + 1) % FFT_SIZE` land on (idx + t) mod 1024 |
| Ring.SlotAdd | app/src/main/cpp/vgmplayer_jni.cpp:295 | advancing a steps and then b steps is advancing a + b steps |
| Ring.WriteAppend | app/src/main/cpp/vgmplayer_jni.cpp:269-299 | writing one run and then a second run from where the first ended is writing both runs at once |
| Ring.WriteAt | app/src/main/cpp/vgmplayer_jni.cpp:294-295 | within one turn, frame t of a run lands in slot (idx + t) mod 1024, and a slot no frame reaches keeps its old value |
| Ring.SlotHits | app/src/main/cpp/vgmplayer_jni.cpp:294-295 | value t of a run lands in slot p exactly when p is t slots after the start (both directions) |
| Ring.Rotation | app/src/main/cpp/vgmplayer_jni.cpp:321-323 | the 1024-entry snapshot read from the write index on; Ring.RotationSplit, Ring.RotationIsPermutation and Ring.WindowIsLatest state what it holds |
| Ring.RotationSplit | app/src/main/cpp/vgmplayer_jni.cpp:321-323 | the snapshot is the ring from the write index to the end, followed by the ring before it |
| Ring.RotationIsPermutation | app/src/main/cpp/vgmplayer_jni.cpp:321-323 | the snapshot reads every slot exactly once: it has the same multiset of samples as the ring |
| Ring.RotationFindsSlot | app/src/main/cpp/vgmplayer_jni.cpp:321-323 | slot p appears in the snapshot at position (p - idx) mod 1024 |
| Ring.RotationStep | app/src/main/cpp/vgmplayer_jni.cpp:294-295 | a snapshot taken one frame later drops the oldest sample and ends with the new one |
| Ring.WriteSlides | app/src/main/cpp/vgmplayer_jni.cpp:294-295 | after any run, the snapshot at the new index is the old snapshot followed by the run, minus as many of the oldest samples as were added |
| Ring.WindowIsLatest | app/src/main/cpp/vgmplayer_jni.cpp:294-295 | once 1024 or more frames are written, the snapshot is exactly the last 1024 mono values, oldest first, whatever the ring held before |
| Ring.FullTurn | app/src/main/cpp/vgmplayer_jni.cpp:295 | the write index returns to where it was exactly when a multiple of 1024 frames has been written |
| BitReverse.BitSet | app/src/main/cpp/vgmplayer_jni.cpp:47 | `j & bit` is nonzero exactly when the mask is nonzero and j has that bit set; BitReverse.FlipBitToggles states how `j ^= bit` changes it |
| BitReverse.FlipBit | app/src/main/cpp/vgmplayer_jni.cpp:48-49 | `j ^= bit` on values, for a mask that is a single bit; BitReverse.FlipBitToggles states that it inverts exactly that bit |
| BitReverse.FlipBitToggles | app/src/main/cpp/vgmplayer_jni.cpp:48-49 | `j ^= bit` with a one-bit mask inverts that bit, and leaves the bits below it and the bits above it as they were |
| BitReverse.RevInc | app/src/main/cpp/vgmplayer_jni.cpp:46-49 | the inner loop on values: clear set bits from `bit` downwards, then set the first clear one; its meaning, the reversed increment, is stated by BitReverse.ReverseIncrement and BitReverse.RevIncStep |
| BitReverse.BitReversed | app/src/main/cpp/vgmplayer_jni.cpp:43-52 | the permutation the pass must produce, entry i of the result being entry Rev(i) of the input, of the same length; that it is a permutation and an involution is stated by BitReverse.BitReversedIsPermutation and BitReverse.BitReversedInvolution |
| BitReverse.Rev | app/src/main/cpp/vgmplayer_jni.cpp:43-52 | the reverse of the low k bits is below 2^k, so it is a valid index |
| BitReverse.RevTop | app/src/main/cpp/vgmplayer_jni.cpp:43-52 | reversing moves the top bit to the bottom |
| BitReverse.RevInvolution | app/src/main/cpp/vgmplayer_jni.cpp:43-52 | reversing the low k bits twice gives the index back |
| BitReverse.RevIncStep | app/src/main/cpp/vgmplayer_jni.cpp:46-49 | run on the reverse of i, the inner loop gives the reverse of i + 1 |
| BitReverse.RevIncEven | app/src/main/cpp/vgmplayer_jni.cpp:46-49 | for even i, the inner loop only sets the top bit carried over from i's lowest bit |
| BitReverse.RevIncOdd | app/src/main/cpp/vgmplayer_jni.cpp:46-49 | for odd i, the inner loop clears the top bit and carries into the reversal of the remaining bits |
| BitReverse.NextReverse | app/src/main/cpp/vgmplayer_jni.cpp:45-49 | seen from the outer loop, j stays the bit-reverse of i, and it is always a valid index |
| BitReverse.ReverseIncrement | app/src/main/cpp/vgmplayer_jni.cpp:46-49 | the inner `for (; j & bit; bit >>= 1) j ^= bit; j ^= bit;` computes the reversed increment from the top bit down |
| BitReverse.BitReversedInvolution | app/src/main/cpp/vgmplayer_jni.cpp:43-52 | applying the bit-reversal permutation twice gives back the input |
| BitReverse.SwapStep | app/src/main/cpp/vgmplayer_jni.cpp:50-51 | one outer iteration swaps entries i and j when i < j, and otherwise changes nothing, and this takes the handled pairs from those below i to those below i + 1 |
| BitReverse.SwappedNothing | app/src/main/cpp/vgmplayer_jni.cpp:45 | before the pass nothing has moved; index 0 is its own reverse |
| BitReverse.SwappedAll | app/src/main/cpp/vgmplayer_jni.cpp:45-52 | once every lower index has been handled, the vector is the bit-reversal permutation of the input |
| BitReverse.PartlySwappedIsPermutation | app/src/main/cpp/vgmplayer_jni.cpp:45-52 | every intermediate stage of the pass is a permutation of the input |
| BitReverse.SwapStepIsPermutation | app/src/main/cpp/vgmplayer_jni.cpp:50-51 | one outer iteration keeps the multiset of entries |
| BitReverse.BitReversedIsPermutation | app/src/main/cpp/vgmplayer_jni.cpp:43-52 | the bit-reversal permutation only moves samples and loses or duplicates none |
| BitReverse.Swap | app/src/main/cpp/vgmplayer_jni.cpp:51 | `std::swap(a[i], a[j])` exchanges the two entries and touches nothing else |
| BitReverse.SwapPair | app/src/main/cpp/vgmplayer_jni.cpp:45-51 | one outer iteration keeps j the reverse of i and extends the handled pairs by one |
| BitReverse.BitReversePermute | app/src/main/cpp/vgmplayer_jni.cpp:43-52 | on a vector of length 2^k, the in-place pass leaves exactly the bit-reversal permutation of its input |
| Tags.Join | app/src/main/cpp/vgmplayer_jni.cpp:362-367 | each tag followed by the three-bar separator, in order; Tags.JoinShape and Tags.SplitJoin state its shape and its inverse |
| Tags.JoinSnoc | app/src/main/cpp/vgmplayer_jni.cpp:363-366 | one more tag appends that tag and one three-bar separator |
| Tags.JoinShape | app/src/main/cpp/vgmplayer_jni.cpp:362-367 | the string is the tags' own characters plus three per tag, and a non-empty list ends in the three-bar separator |
| Tags.BarIndex | app/src/main/cpp/vgmplayer_jni.cpp:350-352 | part of a reader of the string format these lines document, which the file itself does not contain: the index found is the first bar character of the string, or its length when there is none |
| Tags.Split | app/src/main/cpp/vgmplayer_jni.cpp:350-352 | the reader of that documented format: the string cut at each three-bar separator; Tags.SplitJoin states that it inverts Tags.Join |
| Tags.SplitJoin | app/src/main/cpp/vgmplayer_jni.cpp:350-368 | as long as no tag contains a bar character, cutting the string at each three-bar separator gives back exactly the tag list, empty tags included |
| Devices.Ids | app/src/main/cpp/vgmplayer_jni.cpp:413-422 | the id list has one entry per device, the id of that device, in order |
| Devices.Dedup | app/src/main/cpp/vgmplayer_jni.cpp:412-423 | the ids the search-then-push_back loop collects are never more than the devices; Devices.DedupIsDistinct states that they are the distinct ids |
| Devices.DedupSnoc | app/src/main/cpp/vgmplayer_jni.cpp:413-421 | one more device pushes its id exactly when the id was not collected yet |
| Devices.DedupIsDistinct | app/src/main/cpp/vgmplayer_jni.cpp:412-423 | the search-then-push_back loop keeps every id, adds none, and repeats none |
| Devices.DistinctCard | app/src/main/cpp/vgmplayer_jni.cpp:424 | a list without repeats has as many entries as distinct values |
| Devices.DedupCount | app/src/main/cpp/vgmplayer_jni.cpp:410-424 | the count returned is the number of distinct device ids |
| Devices.FirstWithId | app/src/main/cpp/vgmplayer_jni.cpp:436-437 | the position found is the first device with the id, or the list length when no device has it |
| Devices.SetVolume | app/src/main/cpp/vgmplayer_jni.cpp:465 | the list keeps its length, every device keeps its id and name, devices with the id take the new volume and the others keep theirs; what the UI's queries then report is stated by Devices.SetVolumeThenGet |
| Devices.NameOf | app/src/main/cpp/vgmplayer_jni.cpp:436-441 | the name is "" when no device has the id; otherwise it is the first such device's name, or "Unknown" when that device has none |
| Devices.VolumeOf | app/src/main/cpp/vgmplayer_jni.cpp:454-457 | the volume is 0x100 when no device has the id; otherwise it is the first such device's volume |
| Devices.FirstWithIdSameIds | app/src/main/cpp/vgmplayer_jni.cpp:436-437 | two lists with the same ids in the same order find the same first match |
| Devices.SetVolumeThenGet | app/src/main/cpp/vgmplayer_jni.cpp:448-466 | after a volume is set, the volume query for that id reports it when the id exists; other ids and all names report what they did before |
| RomPath.LastIsSlash | app/src/main/cpp/vgmplayer_jni.cpp:80 | `fullPath.back() == '/'` on a non-empty ROM path; RomPath.UnderRomPathShape states that the join adds a `/` exactly when this is false |
| RomPath.UnderRomPath | app/src/main/cpp/vgmplayer_jni.cpp:79-82 | the joined path starts with the ROM path, and its length grows by one only when a `/` is added |
| RomPath.UnderRomPathShape | app/src/main/cpp/vgmplayer_jni.cpp:79-82 | the file name follows one `/`, and a `/` is added exactly when the ROM path does not already end in one |
| RomPath.RequestFile | app/src/main/cpp/vgmplayer_jni.cpp:69-91 | the name as given is tried first, then under the ROM directory (only when one is set); the result is always a loadable file, and it is null exactly when both attempts fail |
| Engine.Chunk | app/src/main/cpp/vgmplayer_jni.cpp:270 | while frames remain, a request is for between 1 and 4096 frames and never more than remain; when 4096 or fewer remain, it asks for all of them, and otherwise for exactly 4096 |
| Engine.ProgressStep | app/src/main/cpp/vgmplayer_jni.cpp:269-276 | a further request for the next chunk either ends the exchange (the renderer returned 0) or continues it with the frames delivered |
| Engine.ProgressFull | app/src/main/cpp/vgmplayer_jni.cpp:269-299 | the loop also ends when every requested frame has been delivered |
| Engine.RequestedBounds | app/src/main/cpp/vgmplayer_jni.cpp:269-272 | loop requests never deliver more than asked for in total, and each request is between 1 and 4096 frames |
| Engine.ChunkProtocolBounds | app/src/main/cpp/vgmplayer_jni.cpp:258-299 | in a finished exchange, no request is empty or above 4096 frames, no more frames are written than asked for, and a short fill happens only because the renderer returned 0 |
| Engine.NewPlayer | app/src/main/cpp/vgmplayer_jni.cpp:177-186 | a new player gets the sample rate (its rate log holds just that one request), the file-request callback and playbackHz 0, and fails exactly when the loader holds no playable file; otherwise it holds the file's song and device list, and nothing was rendered or sought yet |
| Engine.ConvertStep | app/src/main/cpp/vgmplayer_jni.cpp:278-296 | storing frame i's two samples and its mono value takes "frames 0..i-1 converted" to "frames 0..i converted", in the output and in the ring |
| Engine.FillStepOutput | app/src/main/cpp/vgmplayer_jni.cpp:269-299 | a chunk converted right after the earlier ones leaves the output holding the interleaving of all frames so far |
| Engine.FillStepRing | app/src/main/cpp/vgmplayer_jni.cpp:269-299 | the chunk's mono values, written from where the earlier chunks ended, give the ring that all frames so far would give |
| Engine.FillStepIndex | app/src/main/cpp/vgmplayer_jni.cpp:295 | the write index after the chunk is where all frames so far would put it |
| Engine.VolumeReadBack | app/src/main/cpp/vgmplayer_jni.cpp:448-466 | the glue's `(UINT32)` cast at line 465 and its `(jint)` cast at line 456 undo each other: provided the library stores the full 32-bit volume, setting volume vol on an existing id and then querying it reads back exactly vol, negative values included |
| Engine.Session.constructor | app/src/main/cpp/vgmplayer_jni.cpp:30-40 | the globals start with no player or loader, an all-zero ring at index 0, a 44100 Hz rate and an empty ROM path |
| Engine.Session.Valid | app/src/main/cpp/vgmplayer_jni.cpp:30-40 | the session invariant: buffers of the right sizes, a write index inside the ring, a player exactly when there is a loader, `live` holding exactly those, and an open player holding a song with its loader holding that same song as a playable file |
| Engine.Session.Closed | app/src/main/cpp/vgmplayer_jni.cpp:93-114 | the state cleanup leaves: no player or loader, nothing allocated, no title or chip buffer, a silent ring at index 0 |
| Engine.Session.Cleanup | app/src/main/cpp/vgmplayer_jni.cpp:93-114 | the old player is stopped and unloaded; afterwards there is no player or loader, nothing is allocated, the buffers are freed, the ring is all zero and its index 0; the rate and the ROM path are kept |
| Engine.Session.Close | app/src/main/cpp/vgmplayer_jni.cpp:201-204 | closing leaves the same clean state as cleanup |
| Engine.Session.Open | app/src/main/cpp/vgmplayer_jni.cpp:154-199 | opening succeeds exactly when the loader allocates, the file loads and the player accepts it; on success there is a fresh playing player with the session's rate, handed to it twice (before the load and before the start), the callback, the file's song and the file's device list, with nothing rendered or sought yet; on any failure the session is closed with nothing allocated; either way the invariant holds and the rate and ROM path are kept |
| Engine.Session.Acquire | app/src/main/cpp/vgmplayer_jni.cpp:161-193 | the three allocation steps of nOpen all succeed exactly when the file is openable; then the loader holds the file and a fresh player its song and devices, and both are live; on any failure nothing is live and both results are null |
| Engine.Session.SetSampleRate | app/src/main/cpp/vgmplayer_jni.cpp:120-125 | the rate stored is `(UINT32)rate`; an open player is handed exactly that rate (its rate log grows by it) and, when stopped, runs at it; it keeps its song, devices, play state, position, end flag, callback, playbackHz and render record |
| Engine.Session.SetRomPath | app/src/main/cpp/vgmplayer_jni.cpp:127-133 | the ROM directory becomes the given path and nothing else changes |
| Engine.Session.Play | app/src/main/cpp/vgmplayer_jni.cpp:206-212 | an open player is handed the session's rate again (its rate log grows by it) and is playing afterwards; a player that was stopped runs at that rate; its song, devices, seek log, callback, playbackHz and render record are unchanged |
| Engine.Session.Stop | app/src/main/cpp/vgmplayer_jni.cpp:214-218 | an open player is stopped afterwards and keeps its song, devices, rate, position, end flag, callback, playbackHz and render record |
| Engine.Session.Seek | app/src/main/cpp/vgmplayer_jni.cpp:243-249 | an open player receives exactly one seek request, to `(UINT32)samplePos`, and keeps its song, devices, play state, rate, callback, playbackHz and render record; with no player, nothing changes |
| Engine.Session.IsEnded | app/src/main/cpp/vgmplayer_jni.cpp:220-225 | with no player the answer is true; otherwise it is the player's end flag |
| Engine.Session.TotalSamples | app/src/main/cpp/vgmplayer_jni.cpp:227-233 | with no player the answer is 0; otherwise it is the loaded song's length |
| Engine.Session.CurrentSample | app/src/main/cpp/vgmplayer_jni.cpp:235-241 | with no player the answer is 0; otherwise it is the play position |
| Engine.Session.GetTags | app/src/main/cpp/vgmplayer_jni.cpp:354-369 | with no player or no tag list the string is ""; otherwise it is every tag followed by the three-bar separator, in order (see Tags.SplitJoin for the inverse) |
| Engine.Session.Seen | app/src/main/cpp/vgmplayer_jni.cpp:414-419 | the inner search finds the id exactly when it was already collected |
| Engine.Session.GetDeviceCount | app/src/main/cpp/vgmplayer_jni.cpp:406-427 | with no player or an error status the count is 0; otherwise it is the number of distinct device ids |
| Engine.Session.GetDeviceName | app/src/main/cpp/vgmplayer_jni.cpp:429-446 | with no player, an error status or no device with id `(UINT32)id` the name is ""; otherwise it is the first such device's name, or "Unknown" when it has none |
| Engine.Session.GetDeviceVolume | app/src/main/cpp/vgmplayer_jni.cpp:448-460 | with no player, an error status or no matching device the volume is 0x100; otherwise it is the first matching device's volume cast to jint with `(jint)`; Engine.VolumeReadBack states that a volume set through nSetDeviceVolume reads back unchanged, provided the library stores all 32 bits of the volume |
| Engine.Session.SetDeviceVolume | app/src/main/cpp/vgmplayer_jni.cpp:462-466 | an open player's devices with id `(UINT32)id` take volume `(UINT32)vol`; its song, play state, rate, position, end flag, callback, playbackHz and render record are unchanged |
| Engine.Session.ClearRenderBuf | app/src/main/cpp/vgmplayer_jni.cpp:271 | the first `chunk` entries of the render buffer are zeroed and the rest are untouched |
| Engine.Session.PutFrame | app/src/main/cpp/vgmplayer_jni.cpp:280-295 | one frame writes its clamped channels to the two output slots, writes their sum to the ring at the write index, and moves the index on by one slot |
| Engine.Session.ConvertFrame | app/src/main/cpp/vgmplayer_jni.cpp:278-296 | one conversion-loop iteration takes the output, the ring and the index from "frames 0..i-1 converted" to "frames 0..i converted" |
| Engine.Session.ConvertChunk | app/src/main/cpp/vgmplayer_jni.cpp:278-296 | after the chunk, the output holds the chunk's interleaved samples at its frame offset and nothing else of it changed; the ring holds its mono values from the old write index; the index moved past them |
| Engine.Session.RenderInto | app/src/main/cpp/vgmplayer_jni.cpp:271-272 | the `memset` and the `Render` call: at most `chunk` frames, and the frames the player delivered are the first `got` of the render buffer; the call is recorded in the player's request log as asked for `chunk`, got `got` |
| Engine.Session.RenderChunk | app/src/main/cpp/vgmplayer_jni.cpp:270-298 | one outer pass gets at most `chunk` frames from the renderer; the frames it reports are exactly those the player rendered, in the render buffer, and they are added, converted, to everything converted so far; its one Render call, asking for `chunk`, is appended to the player's request log |
| Engine.Session.RenderLoop | app/src/main/cpp/vgmplayer_jni.cpp:264-299 | the chunk loop follows the request protocol, and its output, ring and index are exactly the conversion of the frames the player rendered during the loop, in order; the protocol is stated over the Render calls the player records, so the requests made are exactly the chunk sizes and the loop stops at the first empty render |
| Engine.Session.FillOpen | app/src/main/cpp/vgmplayer_jni.cpp:264-312 | with a player and frames to fill: the request protocol, 0 <= written <= frames, and output, ring and index as the conversion of exactly the frames the player rendered; the protocol is stated over the Render calls the player records, so the requests made are exactly the chunk sizes and the loop stops at the first empty render |
| Engine.Session.FillBuffer | app/src/main/cpp/vgmplayer_jni.cpp:256-313 | with no player or `frames <= 0` it returns 0 and touches nothing; the player's song, devices, play state, rate, callback and playbackHz never change; the frames it reports are exactly those the player rendered during the call; otherwise it returns 0 <= written <= frames and makes requests of at most 4096 frames, stopping at the first empty render; dst[2t], dst[2t+1] hold frame t's clamped L and R for t < written, and the rest of dst is untouched; the ring gets the mono values from the old index on, and the index ends at (old + written) mod 1024; the request protocol holds of the Render calls the player records during the call, and with no player or `frames <= 0` the render buffer is unchanged too |
| Engine.Session.SpectrumInput | app/src/main/cpp/vgmplayer_jni.cpp:315-333 | the unwindowed snapshot, oldest first, after the bit-reversal permutation: the ring read from the write index on and then bit-reverse permuted; the ring is only read |
| Engine.Session.TrackLengthDirect | app/src/main/cpp/vgmplayer_jni.cpp:375-404 | the length is the song's length when the file opens and 0 on any failure; the probe cannot change the session, since the method modifies nothing |

## Left out

- JNI marshalling is not modelled: `GetStringUTFChars`, `Get/ReleaseShortArrayElements`, `Get/ReleaseFloatArrayElements`, `NewStringUTF`, and `nGetSpectrum`'s early return when the output array cannot be pinned. Strings are `seq<char>` and Java arrays are Dafny arrays.
- Android logging is not modelled, including the `logCounter` of `nFillBuffer`. It has no effect on the state.
- libvgm is not part of this model. `Start`, `SetSampleRate`, `Render`, `Seek`, `GetState`, `Tick2Sample`, `GetTotalTicks`, `GetCurPos`, `GetTags`, `GetSongDeviceInfo`, `SetDeviceVolume` and the data loaders are stand-ins in `Libvgm` that pin down only what the glue relies on.
- Engine.Session.TotalSamples: a song's length in samples is a fixed value of the file. libvgm's `Tick2Sample` also depends on the player's sample rate, and that dependence is not modelled. The same holds for Engine.Session.TrackLengthDirect.
- Engine.Session.Play: where playback stands after `Start`, and the end flag after it, are libvgm's business and stay arbitrary. Whether a player that is already playing takes the re-applied rate is not stated either; only the request is.
- Engine.Session.SetSampleRate: whether a playing player takes the new rate is libvgm's business and is not stated; only the request, and the rate of a stopped player, are.
- Engine.Session.Seek: where playback lands after a seek, and the end flag after it, are libvgm's business and stay arbitrary. Only the request itself is stated.
- Engine.Session.GetDeviceCount: the count is returned as an unbounded integer. `(jint)ids.size()` would wrap only above 2^31 - 1 distinct ids, more than a device list holds.
- Engine.VolumeReadBack: the read-back holds over the stand-in, which stores all 32 bits of the volume. What libvgm reads back when it keeps fewer bits is not stated.
- Engine.Session.SetDeviceVolume: libvgm may keep fewer bits of the volume than the 32 the glue passes, and this is not modelled.
- The floating-point part of `nGetSpectrum` and `fft_process` is not modelled: the butterflies with their `cos`/`sin` twiddles, the magnitudes and their maximum.
- Engine.Session.SpectrumInput: the Hann window of lines 326-331 scales each sample before `fft_process` runs. That scaling is floating point and is skipped. So the vector stated is the unwindowed snapshot after the bit-reversal permutation, not the exact vector the butterflies receive.
- Pcm.Mono: the ring holds the integer `l + r`. The float conversion `/ 65536.0f` is not modelled.
- No normalisation of the magnitudes is stated, because the code never performs one.
- The `CPConv_*` stubs are link-time dummies that only report failure, so they are not modelled.
- Concurrency between the audio thread calling `nFillBuffer` and the UI calling `nGetSpectrum` is not modelled. Every entry point runs to completion on its own.
- `FileLoader_Init`'s allocation failure is a boolean parameter (`loaderAllocOk`). RomPath.RequestFile assumes both of its loader allocations succeed, because the callback calls `DataLoader_Load` without a null check.
- `j & bit` and `j ^= bit` are modelled arithmetically, which is valid for the single-bit masks the loop uses.
- A single-bit mask is a power of two or zero. The arithmetic `BitSet` and `FlipBit` rely on this.
- `gTitleBuf` and `gChipBuf` are two booleans. This file never allocates them; `cleanup` frees them.
- Engine.Session.Open: the C++ stores the new loader and player in `gLoader` and `gPlayer` straight away and resets them to null on failure. The model holds them in locals of Engine.Session.Acquire until the open succeeds. The ghost set `live` records what is allocated in between, and the visible end state is the same.
- Engine.Session.FillBuffer: it requires the output array to hold `2 * frames` samples. The C++ writes without checking, so a shorter Java array would be written out of bounds.
