# Mardio in Dafny

Mardio is an MP3/WAV player written in C. It plays from files and from radio streams, on a Linux
host and on an STM32 board. This project models its core and proves properties of that model:

- the input and output rings and the event queue: two free-running unsigned 32-bit counters over a
  fixed array of slots (`Ring`, `IoBuffer`, `Events`);
- the hand-over of sample buffers to the STM32 DMA controller, as a machine of atomic steps of the
  main loop, the DMA stream and the interrupt handler (`AudioDma`, `AudioDriver`, `DmaRing`);
- the path of the bytes of a file through the input ring and the decoder's window, the gate that
  keeps one decode pass from overfilling the output ring, and the conversion of decoded samples to
  16-bit PCM (`Stream`, `Decoder`, `DecodeGate`, `Pcm`);
- the life cycle of the player and its file table (`Files`, `Player`, `PlayerDriver`), its sound loop
  (`Sound`), and the playing of one MP3 file, one WAV file and one radio stream frame by frame
  (`Playback`, `Wave`, `Radio`);
- the console line, the tokenizer, the event loop and the commands behind it (`Console`, `Cmd`,
  `Tokenizer`, `Libc`, `EventLoop`, `Dispatcher`, `Lines`, `Typing`, `Commands`);
- the WAV header walk, URL and address parsing, and the LCD frame buffer (`Riff`, `Address`, `Lcd`).

Each stateful part is a value with pure step functions, about which the laws are proved over every
run. A class with the program's own fields then works in place, and each of its methods is proved to
take the model of the old state to the step function's result. `dafny verify dfyconfig.toml` checks
everything.

## What the program does and does not keep

Several natural expectations are not met by the code. The model keeps the code as it is, and the
project states exactly when the expectation holds.

- A push is accepted while the ring holds one element more than its slots, and the free count of
  such a ring reads 65535. A push onto a full ring makes its newest element come out twice and the
  oldest never (`Ring.PushOverfull`, `Ring.FreeTest`).
- A pop from a non-empty ring is refused exactly when the head counter has wrapped round once more
  often than the tail counter (`Ring.PopRefusedIffWrapped`).
- The decode gate opens on an empty output ring and also on one that holds five frames
  (`DecodeGate.GateExact`). A pass from an empty ring comes out unchanged if and only if it has at
  most four frames, or exactly five whose first and last are equal (`DecodeGate.PassLosslessIff`).
- `ProvideAudioBuffer` waits for room by sleeping until an interrupt. A main loop that has gone to
  sleep is woken by the audio hardware if and only if `DMARunning` is set, which means that the
  handler ran fewer than two times since the room was last looked for; the wait then ends within
  eight events. Otherwise only an unrelated interrupt wakes it (`AudioDma.WakeUpComingIff`,
  `AudioDma.WaitAlwaysEnds`, `AudioDma.SleepCanBeStranded`).
- The comment at `libs/Audio/Audio.h:38-41` forbids overwriting a provided buffer before the next
  one is asked for. The rings do not enforce this, and the model follows the code. A push writes a
  slot that the DMA still owns in exactly these cases (`DmaRing.PushClobbersIff`): two frames wait
  and two are in flight; three wait and at least one is in flight; four wait, two are in flight and
  the frames dropped since the earlier of them was popped number 2 modulo 4; five wait and the
  frames dropped since the last pop number 2 modulo 4 with one in flight, or those since the pop
  before number 1 modulo 4 with two in flight. After drops a pop, too, can scale a slot that is
  being played (`DmaRing.PopClobbersIff`).
- The sample conversion rounds to the nearest 16-bit value if and only if the rounding addition
  stays inside 32 bits; otherwise a loud positive sample becomes the most negative one
  (`Pcm.ScaleNearestIff`, `Pcm.ScaleOverflows`).
- Scaling by the volume is exact on every sample if and only if the volume is at most 16
  (`Pcm.VolumeSafeIff`). Turning the volume down at 0 sets it to 16 (`EventLoop.VolumeStep`).
- A WAV file with a rejected header keeps its file table slot for ever; three of them leave no slot
  (`Player.LeaksHappen`, `Player.LeaksAreForever`).
- A failed play leaves the player active if the previous file's type is still remembered; the next
  poll stops it (`Player.FailedPlayIsRepaired`).
- A play that fails with no earlier file remembered leaves the decoder initialised, and the next
  play initialises it again (`Player.InitLeftOpenIff`, `Player.DecoderAlternatesIff`).
- The end of an MP3 file stops the player in the same frame. While a file plays, three chunks wait
  after every frame, and in the last one the decoder gets at most one of them. So whatever the
  decoder and the sound device do, the last two chunks of 1024 bytes of a file are never decoded, and
  nothing of a file of at most 3072 bytes is (`Playback.EndIsNeverPlayed`,
  `Playback.ShortFileIsSilent`). Only an empty file could be consumed whole, and `fs_type` takes no
  file under 44 bytes for an MP3. The bound is exact: for every file some run reaches it
  (`Playback.BoundIsReached`). `Stream.AllConsumedIff` is the condition for the last frame alone.
- A WAV file goes past the input ring. The sound loop empties the output ring in the first frame,
  `pl_poll` takes that for starving, and only a full input ring ends the buffering. So of every WAV
  file exactly the first buffer of 4608 bytes is heard. If its sound fills at most four buffers the
  player stops one frame after the last was read; otherwise it stays in buffering for good, with the
  file open (`Wave.OneBufferIsHeard`, `Wave.StuckIff`).
- A backspace on an empty line is kept as a character, and the next one takes it away again. A line
  of at most 128 key strokes is what a plain editor makes of it if and only if an even number of
  backspaces met an empty line (`Typing.EditedIsIdealIff`).
- An over-full event queue delivers the console's input event twice (`Events.OverflowServesTwice`).
  After Enter one input event is delivered if at most six events were waiting, and two if more were
  (`EventLoop.EnterDeliveredOnceIff`). The second one finds the line emptied by the first, and does
  nothing if it is still empty (`EventLoop.InputOnEmptyLine`). If something has been typed since, the
  unfinished line is run and wiped (`Lines.UnfinishedLineRuns`). Every line finished by Enter is run
  exactly once, and nothing else is, in every run in which no Enter meets more than six waiting
  events (`Lines.LinesRunOnce`); those are exactly the runs in which no input event is ever left over
  (`Lines.CleanIffNeverHasty`).
- The console line has no terminator if and only if 128 characters other than NUL were kept
  (`Console.Editor.TerminatedIff`).
- A control character other than a line end, where a token should start, fills the rest of the token
  table with empty tokens (`Cmd.ControlFillsTable`). A comment is recognised only before spaces are
  skipped (`Cmd.PlainRoundTrip`).
- The WAV walk does not skip the padding byte that chapter 2 of the IBM/Microsoft Multimedia
  Programming Interface and Data Specifications 1.0 puts after a chunk of odd size. A padded header
  is understood if all its chunks are even, and rejected otherwise (`Riff.HeaderRoundTrip`).
- A dotted address may have any number of pieces if its text has at least seven characters; the last
  four count, a dot at the end is ignored, and a piece but the first may begin with a dot
  (`Address.TextMeans`).
- The lower bounds of the LCD's refresh box never leave 0, because one assignment goes to the wrong
  field and the box starts at 0 (`Lcd.MinimaStayZero`). After a screen clean, a refresh covers
  one byte (`Lcd.CleanedScreenRefresh`).

## Model

| member | source | states |
|---|---|---|
| `Ring.Push` | common/iobuffer.c:89-104 | the backlog grows by one until it is one above the number of slots, and never further |
| `Ring.Pop` | common/iobuffer.c:106-121 | a refused pop changes nothing; an accepted one had a non-empty ring and takes one off the backlog, writing no slot |
| `Ring.HeadSlot` | common/iobuffer.c:89-104 | the head selects the slot a backlog after the tail's, even when the counters have wrapped |
| `Ring.PushAppends` | common/iobuffer.c:89-104 | with a slot to spare, the live elements gain the pushed one at the end and keep the others in order |
| `Ring.PopTakesOldest` | common/iobuffer.c:106-121 | a pop yields the oldest live element and leaves exactly the others |
| `Ring.FreeTest` | common/iobuffer.c:27-33 | the free count is 0 if and only if the backlog equals the slots; used and free add up exactly up to there; one beyond, free reads 65535 |
| `Ring.PushRefines` | common/iobuffer.c:89-104 | a push keeps the ring a refinement of the unbounded log of everything ever written |
| `Ring.PopRefines` | common/iobuffer.c:106-121 | a pop keeps the refinement and yields what the log's pop yields |
| `Ring.RunRefines` | common/iobuffer.c:89-121 | over every run of pushes and pops, wrapped counters and over-full pushes included, the ring yields what the log yields |
| `Ring.PushKeepsFifo` | common/iobuffer.c:89-104 | a push guarded by the free count keeps popped plus live equal to pushed |
| `Ring.PopKeepsFifo` | common/iobuffer.c:106-121 | a pop keeps popped plus live equal to pushed |
| `Ring.GuardedRunIsFifo` | common/iobuffer.c:89-121 | in every run whose pushes look at the free count first, what came out plus what is inside is exactly what went in, in order |
| `Ring.PopRefusedIffWrapped` | common/iobuffer.c:106-121 | a pop of a non-empty ring is refused if and only if the two counters wrapped a different number of times |
| `Ring.WrapStrandsElement` | common/iobuffer.c:106-121 | for every ring there is a run that ends with an element inside which no pop yields |
| `Ring.DrainShape` | common/iobuffer.c:106-121 | popping until refused yields the live elements; in an over-full ring the first is replaced by the newest |
| `Ring.PushDrains` | common/event.c:21-36 | a push with a slot to spare adds its element at the end of what draining yields |
| `Ring.PushOverfull` | common/event.c:21-36 | a push onto a full ring comes out first and last, and the oldest is lost |
| `Ring.OverfullDrains` | common/event.c:21-36 | all but the first one or two elements still to come survive such a push |
| `IoBuffer.Io.constructor` | common/iobuffer.c:71-87 | an initialised ring is the empty run |
| `IoBuffer.Io.Used` | common/iobuffer.c:27-29 | the used count of the fields in place is that of the model |
| `IoBuffer.Io.Free` | common/iobuffer.c:31-33 | the free count of the fields in place is that of the model |
| `IoBuffer.Io.Reset` | common/iobuffer.c:71-87 | a reset ring is the empty run, whatever it held |
| `IoBuffer.Io.Push` | common/iobuffer.c:89-104 | the in-place push refines the model's and returns the slot that now holds the element |
| `IoBuffer.Io.Pop` | common/iobuffer.c:106-121 | the in-place pop refines the model's, the refused case included |
| `IoBuffer.Io.Peek` | common/iobuffer.c:177-191 | yields what the next pop would, changing nothing |
| `DecodeGate.GateExact` | common/libmad.c:247-258 | the gate is open if and only if the output ring holds no frame or five |
| `DecodeGate.PushAllBacklog` | common/libmad.c:244-336 | after a pass from an empty ring the backlog is the number of frames, at most five, and up to four are all live in order |
| `DecodeGate.PushAllLevel` | common/libmad.c:244-336 | from any fill level the head moves by the number of frames and the backlog grows by it, at most to five |
| `DecodeGate.FifthFrame` | common/libmad.c:244-336 | after a pass of five frames the sound loop plays the fifth in place of the first |
| `DecodeGate.PassLosslessIff` | common/libmad.c:244-336 | what is played equals what was synthesised if and only if there were at most four frames, or five with first equal to last |
| `DecodeGate.PushAllKeepsFifo` | common/libmad.c:203-242 | a pass that fits keeps played plus waiting equal to synthesised |
| `DecodeGate.ShortPassesLoseNothing` | common/libmad.c:244-336 | in every run whose passes have at most four frames, played plus waiting is exactly what was synthesised, in order |
| `AudioDma.MainStepKeeps` | libs/Audio/Audio.c:199-268 | every atomic step of providing a buffer keeps the protocol's invariant |
| `AudioDma.HandlerStepKeeps` | libs/Audio/Audio.c:278-286 | every atomic step of the interrupt handler keeps it |
| `AudioDma.StepKeeps` | libs/Audio/Audio.c:199-286 | so does every step of either, of the stream and of other interrupts, in any interleaving |
| `AudioDma.RunKeeps` | libs/Audio/Audio.c:199-286 | the invariant holds after every run |
| `AudioDma.StepKeepsCalls` | libs/Audio/Audio.c:199-219 | accepted plus offered buffers change only by the buffer of a new call |
| `AudioDma.CallsAreAccepted` | libs/Audio/Audio.c:199-219 | after every run the accepted and the offered buffers are the buffers of the calls, in order |
| `AudioDma.ExactlyOnceInOrder` | libs/Audio/Audio.c:199-286 | after every run completed, active, queued and offered buffers are the provided ones, each once and in order; at most one is active and one queued; a queued one implies a busy stream |
| `AudioDma.WakeUpComingIff` | libs/Audio/Audio.c:199-202 | a sleeping main loop has an audio interrupt coming if and only if DMARunning is set, equivalently if the handler ran fewer than two times since the last look for room; else nothing but an unrelated interrupt can happen |
| `AudioDma.WaitAdvances` | libs/Audio/Audio.c:199-286 | from such a sleep some event other than an unrelated interrupt can always happen, and each one brings the passed test nearer |
| `AudioDma.WaitAlwaysEnds` | libs/Audio/Audio.c:199-286 | every continuation of eight events without an unrelated interrupt takes the waiting call past its test |
| `AudioDma.WaitEnds` | libs/Audio/Audio.c:199-202 | in the first case there is a continuation without unrelated interrupts that ends the wait |
| `AudioDma.Uninterrupted` | libs/Audio/Audio.c:204-219 | six steps, or eight when the stream is idle, hand the buffer over |
| `AudioDma.SleepCanBeStranded` | libs/Audio/Audio.c:199-202 | the second case is reachable |
| `AudioDma.UnrelatedWakes` | libs/Audio/Audio.c:199-202 | an unrelated interrupt always ends the sleep, and a stranded call then passes its test |
| `AudioDriver.Audio.constructor` | libs/Audio/Audio.c:22-28 | the variables at start-up are the machine's initial state |
| `AudioDriver.Audio.StartAudioDmaAndRequestBuffers` | libs/Audio/Audio.c:245-268 | programs the stream with the queued buffer and empties the queue, as the machine's two steps do |
| `AudioDriver.Audio.ProvideAudioBufferWithoutBlocking` | libs/Audio/Audio.c:204-219 | succeeds if and only if no buffer is queued, and is then the run of the machine's steps; else it changes nothing |
| `AudioDriver.Audio.InterruptHandler` | libs/Audio/Audio.c:278-286 | is the run of the machine's handler steps, with a queued buffer and without |
| `DmaRing.StepKeeps` | stm32/sound.c:100-158 | every step of ring and hand-over, dropping pushes included, keeps: the buffers handed over are the popped slots, in order, each one for every pop and drop before it; drops show in the backlog |
| `DmaRing.RunKeeps` | stm32/sound.c:100-158 | after every run as well |
| `DmaRing.OwnedAreLastPopped` | stm32/sound.c:100-134 | the DMA holds at most two buffers, and they are the last popped slots |
| `DmaRing.OwnedSlots` | stm32/sound.c:100-134 | a slot is the DMA's if and only if it is that of the last pop, or of the one before when two are in flight, each as far behind the tail as frames were dropped since |
| `DmaRing.PushClobbersIff` | common/iobuffer.c:89-104 | for every backlog from 0 to 5, a push writes a slot of the DMA if and only if a table of backlog, buffers in flight and frames dropped since they were popped says so |
| `DmaRing.PopClobbersIff` | stm32/sound.c:100-134 | a pop scales a slot of the DMA if and only if a second such table says so; without dropped frames it never does |
| `DmaRing.ClobberingPushDamages` | common/libmad.c:203-242 | such a push leaves what is being played as it was if and only if it writes the very same frame |
| `DmaRing.StepKeepsIntact` | stm32/sound.c:100-158 | every step but such a push or pop leaves what the DMA has yet to play as it was handed over |
| `DmaRing.PlayedIntact` | stm32/sound.c:100-158 | in every run without such a push or pop, each slot the DMA has yet to finish holds the frame that was handed over |
| `DmaRing.ShallowPushesAreSafe` | common/libmad.c:244-336 | a run that pushes only onto at most one waiting frame contains no such push and no such pop |
| `DmaRing.ThirdFrameClobbers` | common/libmad.c:203-242 | such a push is reachable, as the first of its run |
| `DmaRing.DroppingPushClobbers` | common/iobuffer.c:89-104 | so is one on an over-full ring, as the first of its run |
| `DmaRing.PopAfterDropsClobbers` | stm32/sound.c:100-134 | and such a pop, with no overwriting before it |
| `Stream.PollKeeps` | common/fs.c:463-489 | reading a chunk of the file keeps the conservation of bytes |
| `Stream.RefillKeeps` | common/libmad.c:171-201 | moving a chunk into the window keeps it, and fails if and only if the two do not fit |
| `Stream.PassKeeps` | common/libmad.c:244-336 | a decode pass keeps it, and what was consumed only grows |
| `Stream.EveryByteAccounted` | common/libmad.c:171-201 | after every run of polls and passes without a window overflow, consumed plus window plus ring is the file as read so far, the whole file once it is closed; what was consumed is a prefix of the file |
| `Stream.ReadsInChunks` | common/fs.c:463-489 | over every run of an open file each push is the next chunk of 1 to 1024 bytes, and window and consumed bytes together are at most one chunk for each pop |
| `Stream.AllConsumedIff` | common/fs.c:463-489 | after the poll that meets the end of the file and one more pass, the whole file is consumed if and only if nothing was waiting, or the pass ran, at most one chunk was waiting and the pass used up window and chunk |
| `Decoder.Resource.constructor` | common/resfs.c:97-129 | an open resource is at its start |
| `Decoder.Resource.Read` | common/resfs.c:97-129 | yields the next bytes, as many as asked for or left, and moves past them |
| `Decoder.Resource.Seek` | common/resfs.c:131-145 | goes to the offset, or to the end if that is nearer |
| `Decoder.Mad.MoveDown` | libs/libc/strings.c:36-53 | the unconsumed bytes end up at the start of the buffer although the ranges may overlap |
| `Decoder.Mad.CopyTo` | libs/libc/strings.c:14-24 | the chunk follows what was there, which stays |
| `Decoder.Mad.Consume` | common/libmad.c:244-336 | the decoder drops bytes from the front of its window and no others |
| `Decoder.Mad.Input` | common/libmad.c:171-201 | takes one chunk and appends it to the unconsumed bytes; stops on an empty ring, on a chunk that does not fit and on an empty window |
| `Decoder.Streamer.constructor` | common/fs.c:444-461 | an opened file starts the empty run |
| `Decoder.Streamer.Poll` | common/fs.c:463-489 | the in-place poll refines the model's |
| `Decoder.Streamer.Pass` | common/libmad.c:244-336 | the in-place pass refines the model's, window overflow included |
| `Pcm.ScaleNearestIff` | common/libmad.c:153-168 | the result is a nearest representable 16-bit value if and only if the rounding addition stays in 32 bits |
| `Pcm.ScaleOverflows` | common/libmad.c:153-168 | otherwise the sample was above the largest value and becomes the smallest |
| `Pcm.ScaleInRange` | common/libmad.c:153-168 | inside 32 bits the result is the quotient that rounding defines, clipped at both ends |
| `Pcm.ScaleMonotone` | common/libmad.c:153-168 | inside 32 bits a larger sample never gives a smaller result |
| `Pcm.ScaleIsInt16` | common/libmad.c:153-168 | the result fits 16 bits for every sample |
| `Pcm.BytesRoundTrip` | common/libmad.c:203-242 | the two bytes written for a sample read back as that sample |
| `Pcm.DecodeIs` | common/libmad.c:203-242 | two bytes are read as the low and the high byte of a two's complement number |
| `Pcm.DecodedAt` | common/libmad.c:203-242 | the `k`th number of a buffer is that of its bytes 2k and 2k+1 |
| `Pcm.QuantisedAt` | common/libmad.c:153-168 | quantising keeps the number of samples and turns each one into what `scale` makes of it |
| `Pcm.StereoAt` | common/libmad.c:203-242 | interleaving puts left samples at even places and right ones at odd places |
| `Pcm.PutSample` | common/libmad.c:203-242 | appends one sample to what the buffer decodes to and writes nothing beyond |
| `Pcm.Emit` | common/libmad.c:203-242 | appends what `scale` makes of the sample to the quantised ones before |
| `Pcm.EmitPair` | common/libmad.c:203-242 | appends left, then right |
| `Pcm.Output` | common/libmad.c:203-242 | the `n`th sample of the left and of the right channel, as `scale` makes them, stand at their places of the buffer, interleaved if stereo; the size is theirs; a frame that does not fit is refused and writes nothing |
| `Pcm.VolumeLaws` | common/snd.c:101-115 | up to volume 16: floor of the sample times the squared volume over 256, never louder, sign kept, monotone, identity at 16 and silence at 0 |
| `Pcm.VolumeMonotone` | common/snd.c:101-115 | up to volume 16 a larger sample never scales to a smaller one |
| `Pcm.VolumeSafeIff` | common/snd.c:101-115 | the 16-bit store loses nothing on any sample if and only if the volume is at most 16 |
| `Pcm.ApplyVolume` | common/snd.c:101-115 | scales exactly the counted samples in place |
| `Files.FirstFree` | common/fs.c:93-102 | the first free slot, or -1 if and only if there is none |
| `Files.FirstClosed` | linux/fs.c:43-65 | the first closed host file, or -1 if and only if there is none |
| `Files.PigeonHole` | linux/fs.c:43-65 | a free slot implies a free host file, so the host table is never the one that is full |
| `Files.OpenKeeps` | common/fs.c:104-140 | an open succeeds if and only if a slot is free and the name is found; the first free slot then refers to the first closed host entry if the file is on the host, and to the resource of that name otherwise; a failed open changes nothing |
| `Files.CloseKeeps` | common/fs.c:142-166 | a close frees that slot and its host entry and nothing else, and keeps slots and host files matched one to one |
| `Files.CloseUndoesOpen` | common/fs.c:104-166 | closing what was just opened restores the whole table |
| `Files.TypeLeavesNoTrace` | common/fs.c:226-268 | finding out a file's type changes nothing, and reports a file as missing if and only if it cannot be opened |
| `Files.StopKeeps` | common/fs.c:531-541 | stopping closes the playing file, keeps the leaked slots and the remembered type |
| `Files.PlayKeeps` | common/fs.c:491-512 | a file plays if and only if it is found twice and is an MP3 or a WAV with a good header; a slot leaks if and only if the WAV's header is bad; the type is remembered only on success; the slot played refers to the file asked for |
| `Player.StepKeepsInv` | common/player.c:83-200 | every operation keeps the joint invariant of player, decoder, files, network and rings, and never gives a leaked slot back |
| `Player.LifeCycle` | common/player.c:74-200 | it holds after every run, pending connections that open or fail included: the decoder is closed only right after it was opened and its state tells the last call, an open file or connection belongs to an active player of that source, an active player has a decoder, input is never over-full |
| `Player.InitLeftOpenIff` | common/player.c:83-125 | a play leaves the decoder initialised in a stopped player if and only if its file cannot be played, told from the name and the leaked slots, and no earlier type is remembered |
| `Player.StepAlternatesIff` | common/player.c:83-138 | a step keeps init and done taking turns if and only if it is not a play that finds such a decoder |
| `Player.DecoderAlternatesIff` | common/player.c:74-200 | over every run init and done take turns if and only if no play of the run found such a decoder |
| `Player.InitTwice` | common/player.c:83-125 | two plays of a missing file initialise the decoder twice |
| `Player.FailedPlayIsRepaired` | common/player.c:83-125 | after a file that does not play, the player is active if and only if a previous type is remembered, and the next poll stops it |
| `Player.RejectedIff` | common/fs.c:302-405 | a file with a serialised header is rejected, and so leaks, if and only if a chunk has an odd size or its last format is not playable |
| `Player.RejectedLeaks` | common/fs.c:409-410 | playing a WAV file with a bad header leaks one slot from every state that has one left |
| `Player.LeaksHappen` | common/fs.c:409-410 | from every state any three such files leak every slot |
| `Player.LeaksAreForever` | common/fs.c:409-410 | over every later run leaks never shrink, and with all slots leaked no file is ever open |
| `Player.Hysteresis` | common/player.c:140-200 | buffering turns to playing only in a poll with a full input ring; playing turns to buffering in a poll if and only if both rings are empty and nothing failed or ended; a stopped player stays stopped until a play |
| `Player.PollStopsIff` | common/player.c:140-200 | a poll stops an active player if and only if a component failed or its file ended, and then everything is closed |
| `Player.DecoderFills` | common/libmad.c:244-336 | a pass runs if and only if the decoder is ready, the player not buffering, input waiting and the output ring empty or over-full; it takes one input buffer and puts every frame into the output ring, where at most five wait; otherwise nothing changes |
| `Player.SoundDrains` | linux/sound.c:167-191 | without a device failure the sound loop empties the output ring, bogus frames included |
| `Sound.SoundPlays` | linux/sound.c:117-191 | a playing frame hands every waiting buffer to the device unless a write fails, and leaves it playing after a good buffer and paused after a bogus one |
| `Sound.SoundFails` | linux/sound.c:117-191 | the first failed write ends the loop with the buffers behind it left |
| `Sound.SoundRests` | linux/sound.c:167-191 | with nothing to play a playing device is paused; a player that is not playing leaves its buffers alone |
| `Sound.SoundRefused` | linux/sound.c:117-191 | a ring whose head counter has wrapped yields nothing, and the device is marked failed |
| `Sound.DecodedIsHeard` | linux/main.c:61-73 | of the frames a pass yields, all up to five are handed to the device in the same frame and none is left |
| `Player.BufferingKeepsTails` | common/player.c:140-200 | no operation takes anything from either ring while buffering |
| `Player.BufferingPeriod` | common/player.c:140-200 | nor does a whole buffering period |
| `Player.EndOfFileCutsShort` | linux/main.c:61-73 | the frame that meets the end of an MP3 stops the player, and its input ring holds no fewer buffers than before, the empty one of the end of the file counted |
| `Playback.SameStays` | common/iobuffer.c:89-121 | the counters of the player's ring and of the ring with contents stay equal |
| `Playback.FrameKeeps` | linux/main.c:61-73 | every frame keeps: nothing leaves the input ring before it has been full, three chunks wait after every later frame, player and pipe agree, and the decoder has not reached the last two chunks |
| `Playback.FramesKeep` | linux/main.c:61-73 | so after every sequence of frames |
| `Playback.RunKeeps` | linux/main.c:61-73 | so after every run of frames from any player state in which the play succeeds |
| `Playback.EndIsNeverPlayed` | common/player.c:140-200 | in every run the bytes consumed are at most those before the last two chunks, none for a file of less than four chunks; never all of a file that has any |
| `Playback.BoundIsReached` | common/player.c:140-200 | for every file and every player whose sound device works there is a run that consumes exactly that many bytes |
| `Playback.StopsWithTheRest` | common/player.c:140-200 | the poll that meets the end of the file stops the player in that frame, and what was consumed, the window and the ring are then exactly the file |
| `Playback.EveryFrameIsHeard` | linux/main.c:61-73 | after every frame of every run with a working device, the frames of all turns in which the decoder took input have been through the output ring, and it is empty |
| `Playback.ShortFileIsSilent` | common/player.c:140-200 | a file of less than four chunks leaves nothing consumed, and the player has stopped one frame after its last chunk |
| `Wave.FramesStand` | common/player.c:140-200 | after any number of frames a WAV file is over, or the player is buffering with one buffer played and as many read as frames, at most five |
| `Wave.OneBufferIsHeard` | common/player.c:140-200 | in every run at most one buffer of a WAV file is handed to the device, and the player is playing only before the first frame |
| `Wave.StuckIff` | common/player.c:140-200 | with a working device exactly one buffer is, and after six frames the player is stuck in buffering, file open, if and only if the sound fills more than four buffers |
| `Radio.PacketTaken` | linux/net.c:213-268 | a packet goes into the input ring if and only if there is room, and a failure shows then |
| `Radio.PlaysFromFourthPacket` | common/player.c:140-200 | whatever decoder and device do, nothing is decoded or played before the fourth packet, and the frame that brings it starts the playing |
| `Radio.FirstPollStopsIff` | common/player.c:140-200 | the first poll after a play stops a stream if and only if its connection is closed or failed |
| `Radio.PendingWaits` | stm32/net.c:355-408 | a pending connection waits until it is answered, and the player stops if and only if the answer is a failure |
| `PlayerDriver.Device.constructor` | common/player.c:74-81 | the start-up state satisfies the joint invariant |
| `PlayerDriver.Device.FsGetHandle` | common/fs.c:93-102 | the loop finds the first free slot |
| `PlayerDriver.Device.HostFsOpen` | linux/fs.c:43-65 | the loop takes the first closed host file if the file exists |
| `PlayerDriver.Device.FsOpen` | common/fs.c:104-140 | the in-place open refines the model's |
| `PlayerDriver.Device.FsClose` | common/fs.c:142-166 | the in-place close refines the model's |
| `PlayerDriver.Device.FsStop` | common/fs.c:531-541 | the in-place stop refines the model's |
| `PlayerDriver.Device.FsType` | common/fs.c:226-268 | the in-place type look-up refines the model's |
| `PlayerDriver.Device.FsOpenRiff` | common/fs.c:270-411 | refines the model's, the leak on a bad header included, and touches nothing but the file state |
| `PlayerDriver.Device.FsOpenMp3` | common/fs.c:444-461 | refines the model's and touches nothing but the file state |
| `PlayerDriver.Device.FsPlay` | common/fs.c:491-512 | refines the model's and touches nothing but the file state |
| `PlayerDriver.Device.FsPoll` | common/fs.c:514-529 | refines the model's and keeps the joint invariant |
| `PlayerDriver.Device.PlStop` | common/player.c:127-138 | refines the model's |
| `PlayerDriver.Device.Prepare` | common/player.c:83-125 | the part of a play before the source is opened refines the model's |
| `PlayerDriver.Device.PlayFile` | common/player.c:83-125 | the state follows the remembered type: WAV plays at once, MP3 buffers, anything else stops |
| `PlayerDriver.Device.PlPlay` | common/player.c:83-125 | refines the model's and keeps the joint invariant |
| `PlayerDriver.Device.PlPoll` | common/player.c:140-200 | refines the model's and keeps the joint invariant |
| `PlayerDriver.Device.SndLoop` | linux/sound.c:167-191 | the loop refines the model's recursion and keeps the joint invariant |
| `Events.PushIsNewest` | common/event.c:21-36 | the pushed event is the newest of a non-empty queue, over-full or not |
| `Events.PopOfNewest` | common/event.c:38-50 | a pop of a queue with one event, or of an over-full one, yields the newest |
| `Events.StepKeeps` | stm32/console.c:68-90 | every key stroke and event step keeps: a locked console nobody serves has its wake-up as the newest event |
| `Events.NoLostWakeUp` | stm32/console.c:68-90 | that holds after every interleaving of key strokes and event handling |
| `Events.LockIsServed` | common/event.c:52-104 | a locked console is served after as many pops as there are events waiting, whatever is typed meanwhile |
| `Events.OverflowServesTwice` | common/event.c:21-36 | on an over-full queue the wake-up comes out first and last |
| `Console.CStringPadded` | common/console.c:16-20 | a line followed by a NUL is read back as that line |
| `Console.Editor.constructor` | common/console.c:16-20 | starts with a fresh line |
| `Console.Editor.Push` | common/console.c:51-59 | the in-place append refines the model's, ignoring what does not fit |
| `Console.Editor.Del` | common/console.c:61-67 | the in-place delete takes the last character if there is one |
| `Console.Editor.Reset` | common/console.c:16-20 | unlocks and empties the line |
| `Console.Editor.TerminatedIff` | common/console.c:51-59 | the buffer has a terminator if and only if it is not filled, or a NUL was typed; without a typed NUL it reads back as the line |
| `Cmd.QuotedRoundTrip` | common/cmd.c:47-122 | words without quotes, printed in quotes, are read back, as many as the table takes |
| `Cmd.PlainRoundTrip` | common/cmd.c:47-122 | plain words separated by spaces are read back, unless the line is a comment |
| `Cmd.CommentIff` | common/cmd.c:47-122 | a line is a comment if and only if it starts with a hash or two slashes, and then has no tokens |
| `Cmd.ControlFillsTable` | common/cmd.c:47-122 | a control character at a token's start fills the table with empty tokens |
| `Tokenizer.PackedAt` | common/cmd.c:47-122 | in the packed buffer each token starts where those before it end and is followed by NUL |
| `Tokenizer.Shell.CopyWord` | common/cmd.c:47-122 | copies a word up to its end, with a NUL after it |
| `Tokenizer.Shell.CopyQuoted` | common/cmd.c:47-122 | copies up to the closing quote or the end, with a NUL after it |
| `Tokenizer.Shell.SkipSpaces` | common/cmd.c:47-122 | stops at the first character that is not a space |
| `Tokenizer.Shell.CopyQuotedToken` | common/cmd.c:47-122 | one quoted token is appended and the cursor is past its closing quote |
| `Tokenizer.Shell.CopyPlainToken` | common/cmd.c:47-122 | one plain token is appended and the cursor is past it |
| `Tokenizer.Shell.CopyToken` | common/cmd.c:47-122 | one token of either kind is appended |
| `Tokenizer.Shell.TakeToken` | common/cmd.c:47-122 | takes a token if and only if there is one, records where it starts, and otherwise changes nothing |
| `Tokenizer.Shell.Round` | common/cmd.c:47-122 | one turn of the loop keeps the tables equal to the tokens read so far, within the buffer |
| `Tokenizer.Shell.Tokenize` | common/cmd.c:47-122 | the argument table and the buffer hold exactly the tokens of the line, NUL-terminated, in at most the line's length plus one byte a token |
| `Tokenizer.MemoryEqual` | libs/libc/strings.c:26-34 | equal if and only if both strings have the prefix and it is the same |
| `Tokenizer.FindCommand` | common/cmd.c:124-143 | the first entry whose name is the token, or none if and only if no entry has it |
| `Libc.DigitsOfDecimal` | libs/libc/libc.c:8-50 | the digits of a printed number give the number, whatever follows them |
| `Libc.AccumulatorFitsIff` | libs/libc/libc.c:8-50 | on a printed number the accumulator never leaves a 32-bit int if and only if the number does not |
| `Libc.AtoiOfDecimal` | libs/libc/libc.c:8-50 | parsing a printed number gives the number |
| `Libc.AtoiOfSigned` | libs/libc/libc.c:8-50 | so does parsing one with its sign |
| `Libc.AtoiOfPlus` | libs/libc/libc.c:8-50 | and one after a plus |
| `Libc.AtoiSkips` | libs/libc/libc.c:8-50 | spaces and control characters in front are skipped |
| `EventLoop.VolumeSet` | common/player.c:47-70 | the stored volume is never above 16 |
| `EventLoop.VolumeStep` | common/player.c:47-70 | up stops at 16, down at 0 goes to 16, every volume in range is kept |
| `EventLoop.Command` | common/cmd.c:124-143 | a command pushes at most one event, which is a stop, a play or a volume, and a play's pointer is the second token |
| `Commands.VolumeEvent` | common/player.c:338-379 | louder, softer, mute and a number, words cut short included, ask for one more up to 16, one less down to 0, 0, and the number brought into 0 to 16 |
| `Commands.PlayerEvent` | common/player.c:218-237 | stop asks for a stop, play for its argument, radio for a station from 0 to 15 and nothing otherwise |
| `Commands.FillKeepsFirst` | common/console.c:51-59 | the line keeps the first 128 characters |
| `Commands.TypedLineRuns` | linux/console.c:28-50 | a line of at most 128 characters is run as typed, and what follows it in the same turn is dropped |
| `Commands.Obeyed` | common/player.c:338-379 | an instruction typed on a line has exactly its effect on volume and player in the same turn |
| `Commands.SessionObeyed` | linux/main.c:61-73 | over every session of instructions volume and player calls are those asked for, one after the other |
| `Commands.QuotedSongObeyed` | common/cmd.c:47-122 | a name typed in quotes is played as it is, spaces included |
| `Commands.IgnoredIff` | common/player.c:406-433 | exactly which token lists do nothing |
| `Commands.VolumeKeys` | common/player.c:64-70 | the volume events step by one, up to 16 and from 0 round to 16 |
| `EventLoop.Handle` | common/event.c:52-104 | handling an event keeps the volume in range and takes back nothing that was done |
| `EventLoop.PushAddsNoInput` | common/event.c:21-36 | pushing another event never raises the number of input events waiting, over-full queue included |
| `EventLoop.EnterDeliveredOnceIff` | stm32/console.c:68-90 | with no input event waiting, Enter puts one into what the queue will deliver if at most six events wait, and two otherwise |
| `EventLoop.InputOnEmptyLine` | common/event.c:52-104 | handling an input event empties the line, and on an empty line does nothing but empty the token table |
| `EventLoop.Typed` | stm32/console.c:68-90 | up to eight key strokes with no turn in between leave as many events and no input event |
| `EventLoop.QuickTypistDeliveredTwice` | stm32/console.c:68-90 | from start-up, after that many key strokes and Enter the queue delivers one input event up to six and two from seven |
| `EventLoop.TurnDecreases` | common/event.c:52-104 | each turn lowers the input events waiting, or keeps them and lowers the events waiting |
| `EventLoop.Loop` | common/event.c:52-104 | the loop ends for every queue although commands push events, and leaves the queue empty |
| `EventLoop.PollShape` | linux/console.c:28-50 | reading characters fills the line up to the first line end, locks there, pushes one event and ignores the rest |
| `EventLoop.LoopAfterCommand` | common/event.c:52-104 | the event a command pushed is handled while its argument is still in the token buffer |
| `EventLoop.TurnIsDirect` | linux/main.c:61-73 | polling and looping through the queue does what running the typed command at once would do, and at most one event ever waits |
| `EventLoop.TurnsAreDirect` | linux/main.c:61-73 | the same for every sequence of turns |
| `EventLoop.VolumeStaysInRange` | common/player.c:338-379 | whatever is typed, the volume never leaves 0 to 16 |
| `Lines.StepKeepsCleanIff` | stm32/console.c:68-90 | a step keeps one input event queued for a finished line and none otherwise if and only if it is not an Enter that meets more than six waiting events |
| `Lines.CleanIffNeverHasty` | stm32/console.c:68-90 | a run keeps this all the way if and only if it has no such Enter |
| `Lines.StepMovesLine` | common/event.c:52-104 | while this holds, a step moves a line from finished to waiting or from waiting to run, unchanged |
| `Lines.LinesRunOnce` | common/event.c:52-104 | in every run without such an Enter the lines finished are the lines run, in order and each once, and the one still waiting |
| `Lines.EnteredLocked` | common/event.c:52-104 | in such a run the input handler is entered only with a locked console |
| `Lines.HastyEnterStale` | common/event.c:52-104 | after every such Enter the console can be open and empty again with an input event left as the last to come |
| `Lines.UnfinishedLineRuns` | common/event.c:52-104 | and any character typed then can be run as an unfinished line, the console unlocked |
| `Lines.QuickTypistRunsUnfinished` | stm32/console.c:68-90 | this happens from start-up after seven key strokes and Enter |
| `Typing.KeyEdits` | stm32/console.c:68-90 | a key on the open console changes the line as the editor says |
| `Typing.LineIsEdited` | stm32/console.c:68-90 | after every run the line is what the keys since it was emptied make of it |
| `Typing.TypedLinesRunOnce` | common/event.c:52-104 | in every run without an Enter on more than six waiting events the lines run are the lines typed, corrections made, each once and in order |
| `Typing.UncorrectedIsKept` | common/console.c:51-59 | without a backspace the line is the first 128 keys |
| `Typing.BackspaceUndoes` | stm32/console.c:68-90 | a key and a backspace leave the console as it was |
| `Typing.StrayBackspace` | stm32/console.c:68-90 | the line is that of a plain editor, with a backspace in front after an odd number of backspaces on an empty line |
| `Typing.EditedIsIdealIff` | stm32/console.c:68-90 | so it is that of a plain editor if and only if the number is even |
| `Typing.EchoInOrder` | stm32/console.c:68-90 | in every run whose steps find room in the queue, events taken and waiting are exactly those the keys and commands ask for, in order |
| `Dispatcher.Main.constructor` | common/event.c:21-36 | starts with an empty queue and an unlocked console |
| `Dispatcher.Main.HandleEvent` | common/event.c:52-104 | the in-place switch refines the model's |
| `Dispatcher.Main.TakeTurn` | common/event.c:52-104 | one turn leaves the loop's result unchanged and lowers its measure |
| `Dispatcher.Main.EventLoop` | common/event.c:52-104 | the in-place loop ends with the model's result and an empty queue |
| `Riff.FreqToRate` | common/snd.c:63-99 | the rate whose frequency is the low 16 bits given, or none if and only if there is no such rate |
| `Riff.Le32RoundTrip` | common/fs.c:302-359 | a number written in four little-endian bytes is read back |
| `Riff.DataTag` | common/fs.c:302-359 | the number looked for is that of the four characters of the data tag, and of no others |
| `Riff.FormatRoundTrip` | common/fs.c:361-405 | a written format of any rate and number of channels is understood as it was written |
| `Riff.AcceptedIff` | common/fs.c:361-405 | a format is accepted if and only if it is PCM at one of nine frequencies, of which the low 16 bits count |
| `Riff.OpenRiff` | common/fs.c:270-411 | the loop of the header walk gives the verdict of the recursive walk, for every window |
| `Riff.OddDerails` | common/fs.c:302-359 | a padded chunk of odd size anywhere makes the walk reject the file |
| `Riff.WalkArrives` | common/fs.c:302-359 | with even chunks the walk reaches the data chunk and remembers the last format |
| `Riff.SerialisedIsLaid` | common/fs.c:302-359 | serialised chunks followed by a data chunk lie where the walk looks for them |
| `Riff.HeaderRoundTrip` | common/fs.c:302-405 | for every serialised header: with even chunks the verdict is that of its last format, with the data right after the chunks; with any odd one it is a rejection |
| `Address.ScanHost` | common/net.c:37-79 | stops at the first character that ends a host |
| `Address.ScanDigits` | common/net.c:37-79 | stops at the first character that is no digit |
| `Address.ParseUrl` | common/net.c:37-79 | gives the host, port and path of the reference split |
| `Address.SplitIsLossless` | common/net.c:37-79 | scheme, host, port text and path put together are the address, for every address |
| `Address.SplitInvertsPrint` | common/net.c:37-79 | a printed host, port and path are read back |
| `Address.ParseIp` | common/net.c:81-125 | the loop gives the value of the recursive scan, or none |
| `Address.LastFourCount` | common/net.c:81-125 | the low 32 bits of a big-endian number of any length are the number of its last four bytes |
| `Address.DottedRoundTrip` | common/net.c:81-125 | dotted bytes are refused if and only if their text has fewer than seven characters, and otherwise give the big-endian number of the last four |
| `Address.TextMeans` | common/net.c:81-125 | a text of pieces between dots is refused if and only if it has fewer than seven characters or a piece that is longer than three or no number up to 255; otherwise it is the number of the last four pieces; a dot at the end is ignored |
| `Address.EveryTextIsDotted` | common/net.c:81-125 | every text is one of these, where a piece but the first may begin with a dot |
| `Address.EveryAddressRoundTrips` | common/net.c:81-125 | every 32-bit address, written dotted, is read back |
| `Lcd.MaskIsShift` | stm32/lcd.c:191-208 | the lowest bit of a byte is the uppermost of its eight pixels |
| `Lcd.IndexInjective` | stm32/lcd.c:191-208 | two pixels share a byte if and only if they share column and bank |
| `Lcd.PutChangesOnePixel` | stm32/lcd.c:191-208 | drawing a pixel sets that pixel to the colour and no other |
| `Lcd.MinimaStayZero` | stm32/lcd.c:174-189 | over every sequence of resets and extensions the lower bounds of the box are 0 |
| `Lcd.GrownCovers` | stm32/lcd.c:174-189 | a pixel put the ordinary way is inside the box, which keeps what it covered and grows no further |
| `Lcd.CoveredIff` | stm32/lcd.c:228-251 | a byte is refreshed if and only if its column is inside the box and its bank touches it |
| `Lcd.ExtendCoversIff` | stm32/lcd.c:174-189 | exactly when a box extended to a pixel covers it, if the lower bounds were not 0 |
| `Lcd.RefreshCompleteIff` | stm32/lcd.c:228-251 | the display shows the frame buffer after a refresh if and only if it already did outside the box |
| `Lcd.CleanedScreenRefresh` | stm32/lcd.c:294-296 | after a screen clean, if and only if all but the first byte already agreed |
| `Lcd.Display.constructor` | stm32/lcd.c:253-256 | starts with an empty box |
| `Lcd.Display.Command` | stm32/lcd.c:228-251 | an address command sets the column or the bank and leaves the other |
| `Lcd.Display.Write` | stm32/lcd.c:228-251 | a data byte goes to the addressed place and the address moves on, wrapping |
| `Lcd.Display.PutPixel` | stm32/lcd.c:191-226 | draws inside the screen and ignores the rest; only the lazy form leaves the box alone |
| `Lcd.Display.UpdateBank` | stm32/lcd.c:228-251 | copies the box's columns of one bank and no other byte |
| `Lcd.Display.Update` | stm32/lcd.c:228-251 | the display holds the frame buffer inside the old box and is unchanged outside; the box then grows to the screen |
| `Lcd.Display.Clear` | stm32/lcd.c:294-296 | empties frame buffer and box |
| `Lcd.Display.Draw` | stm32/lcd.c:307-431 | display and frame buffer both hold exactly the picture, or are blank |

## Left out

- The bodies of libmad, id3tag, FatFs and ALSA. What they return is a parameter: bytes consumed, samples, whether a file exists, the fate of a frame.
- The HTTP client and the network stacks below it. A connection is a state that the environment changes.
- `stm32/fs.c`: its host file table has the shape of the Linux one, which is modelled.
- `InitializeAudio`, `StopAudio` and `PlayAudioWithCallback` in the middle of a run. The DMA model starts at start-up and never stops.
- Dispatch of `fs_read` and `fs_seek` by handle, and their guard against handles out of range.
- Looking up a resource by name, and two handles on one resource sharing its cursor.
- GPIO, clock, USB and timer set-up, status commands, choice of LCD image, and the stubs under `null`.
- A play pointer that an over-full event queue on the STM32 delivers after the token buffer was rewritten.
- Tokenizer.Shell.TakeToken: lines of at most 128 characters with a NUL behind them; without one the program reads on past the line buffer, into memory that is not modelled.
- Tokenizer.Shell.Round: the same.
- An answer of the STM32 network client that arrives after the player was stopped.
- AudioDma.ExactlyOnceInOrder: the callback is left out; the player's only switches an LED.
- DmaRing.PlayedIntact: leaves out bogus frames, rate changes and a ring reset while the DMA still plays, and assumes fewer than 2^32 frames since start-up.
- Ring.GuardedRunIsFifo: assumes fewer than 2^32 pushes, because beyond that it is false; `Ring.PopRefusedIffWrapped` says exactly when.
- DecodeGate.ShortPassesLoseNothing: assumes fewer than 2^32 frames, for the same reason.
- Events.NoLostWakeUp: a push or a pop is one step, so an interrupt inside it is not modelled; fewer than 2^32 events since start-up; timestamps are left out.
- EventLoop.Handle: a line of 128 characters without a NUL is read as that line, where the program reads on past the buffer.
- Lines.LinesRunOnce: as for `Events.NoLostWakeUp`.
- EventLoop.TurnsAreDirect: lines as in `EventLoop.Handle`; fewer than 2^32 events since start-up, and the Linux console, which reads only between two loops.
- Stream.EveryByteAccounted: files below 2^31 bytes, so that the counters of the input ring cannot wrap.
- Decoder.Mad.Consume: which bytes libmad consumes is a parameter.
- Pcm.ScaleNearestIff: up to 30 fraction bits; libmad uses 28.
- Libc.AtoiOfDecimal: beyond 32 bits the C language leaves the program's signed overflow undefined; `Libc.AccumulatorFitsIff` says exactly when it does not happen.
- Libc.DigitsOfDecimal: the same.
- Wave.StuckIff: the sound loop of Linux, and frames in which no command is given.
- Playback.EveryFrameIsHeard: fewer than 2^32 frames.
- Typing.EchoInOrder: as for `Events.NoLostWakeUp`; without room `Ring.PushOverfull` says what is lost.
- Commands.SessionObeyed: the Linux console; fewer than 2^32 events since start-up.
- Playback.EndIsNeverPlayed: frames in which no command is given; files below 2^31 bytes, as above.
- Riff.OpenRiff: the pointer is unbounded; a walk that leaves the 128 bytes that were read ends with its own verdict, where the program goes on with whatever lies there.
- Tokenizer.Shell.Tokenize: the same; and the program clears the whole buffer first, which the model does not, so only the bytes the tokens occupy are specified.
