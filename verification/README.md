# Verification model of alsa-utils

This project models the parts of alsa-utils that carry state or arithmetic of their own, and proves
what they keep over all inputs, runs and schedules. Device and file calls are adversaries: reads and
writes may be cut short in any way, signals may arrive between any two accesses to a shared flag,
and what alsa-lib answers is a parameter.

| files | what they model |
|---|---|
| `Options.dfy`, `Arithmetic.dfy`, `TextFacts.dfy` | an optional value, and facts about numbers and texts |
| `Ring.dfy`, `PcmJob.dfy` | the ring buffer of an alsaloop job that both handles share |
| `PcmResample.dfy`, `ResampleSession.dfy`, `ResampleArea.dfy` | the two ring buffers of a job with a resampler between them |
| `Threads.dfy` | the renumbering of alsaloop's thread ids and the distribution of jobs to threads |
| `Slots.dfy`, `Mapper.dfy`, `FrameCache.dfy` | interleaving and deinterleaving in axfer, and its frame cache in both layouts |
| `Bytes.dfy`, `Formats.dfy`, `Container.dfy` | byte fields, sample formats, and file transfers in arbitrary pieces |
| `RiffWave.dfy`, `VocTime.dfy`, `Voc.dfy`, `VocSkip.dfy` | builders and parsers of WAVE and Creative Voice files |
| `Utf8.dfy` | the UTF-8 validator and sanitiser of alsactl |
| `Hex.dfy`, `Tlv.dfy`, `Config.dfy`, `ControlState.dfy`, `ControlSave.dfy`, `ControlRestore.dfy`, `ControlRange.dfy`, `ControlMatch.dfy` | saving control values in a configuration tree and restoring them |
| `DaemonCache.dfy`, `DaemonLoop.dfy` | the writability cache of the alsactl daemon, and its main loop with signals |
| `Json.dfy`, `UcmDump.dfy` | the streaming JSON renderer of alsaucm, against RFC 8259 |
| `SplitLine.dfy` | the in-place tokenizer of amixer |
| `MixerControls.dfy` | the counting and the creating pass of alsamixer's controls |

`dafny verify dfyconfig.toml` checks all of it. Code that changes things in place is modelled by
classes, arrays and loops, and each such method is proved against a function of its inputs; the
lemmas then say what that function is good for.

Some intended properties do not hold of the code as it is. In each case the code is kept, and a lemma
or the contract of the method gives the exact condition:

- After the start of a job the two handles agree if and only if the playback device can hold the whole
  initial silence (`PcmJob.Loopback.InitialFill`). If it cannot, the first capture leaves the rest of
  the silence alone if and only if what it delivers beyond the room behind it is silence itself
  (`PcmJob.Loopback.FirstCapture`); with separate buffers it does no harm
  (`ResampleSession.ResampleJob.Start`).
- An error code of readit is added to a frame count: the handles agree afterwards if and only if there
  was none (`PcmJob.Loopback.CaptureStep`); one of writeit does no harm if and only if all waiting
  frames were taken before (`PcmJob.Loopback.PlayStep`).
- The output area of the resampler starts a number of floats, not frames, behind the pending output;
  whatever it generates, that is harmless if and only if there is one channel, nothing is pending or
  there is no room (`ResampleArea.OutputAreaSparesPending`).
- A job that asks for a thread of its own has one if and only if no job asks for the number that it is
  given instead, ten million and its position (`Threads.OwnThreadIff`).
- A WAVE file that is cut off anywhere behind its magic makes the parser divide by zero if and only if it
  ends in front of the end of the format fields (`RiffWave.TruncatedDividesIff`).
- A subchunk of odd length is skipped without its pad byte, so the subchunks behind it are found if
  and only if its length is even (`RiffWave.PaddingIsUnderstoodIffEven`).
- The 16-bit time constant is a stable quantiser if and only if rate times channels, modulo 2^32, is
  between 1 and 256000000 (`VocTime.QuantiserIsStableIff`); the 8-bit one is for every rate but zero
  (`VocTime.V110QuantiserIsStableIff`).
- Detection does not end on a Creative Voice file if and only if there are only skipped and accepted
  extended blocks, and behind them the beginning of an extended one, or nothing behind an extended one
  (`Voc.SpinsIff`, `Voc.SpinningIffEndless`); of the files that are built, cut off anywhere, these are
  the stereo files that end in, or right behind, their extended block (`Voc.TruncatedSpinsIff`).
- A block of silence, marker, text or repetition in front of the data is skipped four bytes short; the
  file is parsed as without it if and only if the last four bytes of the block read as a block of just
  these four bytes (`VocSkip.SkippedBlockIff`).
- SIGUSR2 rearms itself as a plain quit: a second save_and_quit request has no save behind it if it
  arrives while the first one is being served (`DaemonLoop.SecondRequestIsLost`,
  `DaemonLoop.SavedAfterRequestIff`).
- A rescan request is lost if and only if it arrives between the adding of the cards and the clearing of
  the flag (`DaemonLoop.RescanAfterRequestIff`).
- A change of writability that is not announced before the next use is not noticed
  (`DaemonCache.UnannouncedChangeIsMissed`, `DaemonCache.ExactIffNotStale`).
- jesc escapes quotation marks only, so a string, or a whole dump, is read back as JSON if and only if
  no string in it has a backslash or a control character (`Json.StringComesBackIff`,
  `Json.TextComesBackIff`, `UcmDump.DumpComesBackIff`); and a string with more than 126 quotation marks
  is cut off (`UcmDump.ShownIffFewQuotes`), and jesc writes behind its buffer if and only if what is shown
  does not fit (`UcmDump.Jesc`, `UcmDump.Renderer.Render`).
- An enumerated value comes back if and only if its item is the first of its name or, beyond the
  items, it fits an int; an element without a name is not restored when restoring is forced
  (`ControlState.ValuesComeBackIff`, `ControlMatch.SaveAndRestore`).
- A load converts values to another decibel range in place, once in the run that checks and again in the
  run that writes. The second conversion changes nothing for what alsactl has saved
  (`ControlMatch.SavedIsKept`, `ControlMatch.CheckRunPredicts`); whatever the driver answers it changes
  nothing for one node if and only if that is not converted at all, its decibels were saved, or the values
  that both ranges share have the same decibels (`ControlRange.AlwaysStableIff`).
- The second pass of alsamixer follows a null pointer if and only if an element has, on a side shown
  with a control for each pair of channels, no front pair, and no front control on the side before
  (`MixerControls.CreateControls`).

## Model

| member | source | states |
|---|---|---|
| Ring.PutExtendsWindow | alsaloop/pcmjob.c:488-491 | storing behind the waiting frames of a ring, without overfilling it, appends to them and changes none of them, wherever the ring wraps |
| Ring.SplitWindow | alsaloop/pcmjob.c:488-504 | frames taken off the front of a ring are the oldest, and the rest keeps its order |
| PcmJob.RunIsDelayLine | alsaloop/pcmjob.c:488-504 | for every schedule of partial reads and writes the frames played are a prefix of the leading silence followed by the captured frames in order, and the missing ones are those waiting in the ring |
| PcmJob.StepIsLossless | alsaloop/pcmjob.c:633-643 | each single capture or playback step keeps played plus waiting frames equal to lead plus captured frames |
| PcmJob.DropTakesTheOldest | alsaloop/pcmjob.c:801-829 | dropping leaves the waiting frames without exactly the oldest ones |
| PcmJob.RunConcat | alsaloop/pcmjob.c:1942-1968 | runs of rounds and wake-ups compose: one after the other they are the run of all their events |
| PcmJob.SilenceSurvivesIff | alsaloop/pcmjob.c:1654-1682 | silence that waits in front of the capture position survives a capture if and only if what is delivered beyond the room behind it is silence |
| PcmJob.Loopback.ReadIt | alsaloop/pcmjob.c:678-739 | what was read is stored in order behind the waiting frames, never more than fits, under any sequence of short reads, EAGAIN and xruns; an error code comes only with nothing read. Unless an answer of the device was short, it is all that the device had announced, as far as there was room, a negative answer counting as plenty; no xrun goes unnoticed |
| PcmJob.Loopback.WriteIt | alsaloop/pcmjob.c:741-799 | what was written is exactly the oldest waiting frames, in order, under any sequence of short writes; unless an answer of the device was short or a pending stop took effect, it is all that the device had announced to take, as far as frames wait; no xrun goes unnoticed |
| PcmJob.Loopback.Round | alsaloop/pcmjob.c:1942-1967 | one round is one read and one write, which move all they can if no answer of the devices is short; it ends the wake-up exactly on an xrun, a request to start again, or an idle read on a playback event |
| PcmJob.Loopback.CaptureStep | alsaloop/pcmjob.c:633-643 | after reading and publishing frames the handles agree, and the state is that after capturing them, if and only if readit returned no error code |
| PcmJob.Loopback.PlayStep | alsaloop/pcmjob.c:493-504 | after writing and freeing frames the handles agree, and the state is that after playing them, if and only if writeit returned no error code or had taken all waiting frames |
| PcmJob.Loopback.RemoveSamples | alsaloop/pcmjob.c:801-829 | on a shared buffer the position invariant is kept and the state is that after dropping the oldest frames |
| PcmJob.Loopback.InitialFill | alsaloop/pcmjob.c:1654-1682 | after a successful start the device has as much silence as it can hold, the rest waits as silence, and the handles agree if and only if there is no rest; then the delay line is lossless |
| PcmJob.Loopback.FirstCapture | alsaloop/pcmjob.c:1654-1682 | behind an overfull start, a capture leaves the waiting silence alone if and only if what it delivers beyond the room behind it is silence |
| PcmJob.Loopback.Transfer | alsaloop/pcmjob.c:1942-1968 | what a wake-up does is reads and writes in turn that drop nothing, and both positions still agree. It ends after ten rounds, or with an xrun or a request to start again, or because a round moved nothing, and not before; where nothing moved and no answer was short, the devices or the buffer had nothing left to move |
| PcmJob.Loopback.Session | alsaloop/pcmjob.c:1942-1968 | initial fill and any number of wake-ups, up to and including the one that ends with an xrun or a request to start again: the frames the device has are a prefix of silence followed by the captured frames, and the rest is waiting |
| ResampleArea.OutputAreaSparesPending | alsaloop/pcmjob.c:577-626 | whatever is in the output area and however many frames are generated into its room, pending frames are left alone, if and only if there is one channel, nothing pending or no room |
| PcmResample.ResampleLoop.Gather | alsaloop/pcmjob.c:550-576 | the resampler is handed exactly the unconsumed captured frames in capture order across the wrap |
| PcmResample.ResampleLoop.Consume | alsaloop/pcmjob.c:583-583 | frames that the resampler used are gone, the others stay first in line in order |
| PcmResample.ResampleLoop.Scatter | alsaloop/pcmjob.c:584-613 | as many output frames as fit go behind the unplayed frames in order, which are not touched |
| PcmResample.ResampleLoop.KeepRest | alsaloop/pcmjob.c:619-625 | output that did not fit is kept in order at the start of the output area |
| PcmResample.ResampleLoop.BufAddSrc | alsaloop/pcmjob.c:543-626 | over a whole call: input is the unconsumed frames, a prefix of pending plus generated output is appended to the unplayed frames, and the remainder is pending |
| ResampleSession.ResampleJob.Start | alsaloop/pcmjob.c:1654-1682 | with separate buffers the initial silence is played in order even if the device cannot hold all of it at once |
| ResampleSession.ResampleJob.Round | alsaloop/pcmjob.c:1942-1967 | one round reads, calls the resampler once if frames came, and writes; if no answer of the devices is short, both move all they can |
| ResampleSession.ResampleJob.Transfer | alsaloop/pcmjob.c:1942-1968 | a wake-up ends after ten rounds, or with an xrun or a request to start again, or because the last round moved nothing; where nothing moved and no answer was short, the devices or the buffers had nothing left to move |
| ResampleSession.ResampleJob.Session | alsaloop/pcmjob.c:1942-1968 | any number of wake-ups with a resampler, error codes included, up to and including one that ends with an xrun or a request to start again: it has consumed a prefix of the captured frames in order, and the device has a prefix of the lead followed by all it produced; the rest is waiting |
| ResampleSession.ResampleJob.Run | alsaloop/pcmjob.c:1654-1682 | start and session together: the device has a prefix of the initial silence followed by all the resampler produced of a prefix of the captured frames, and the rest is waiting |
| PcmResample.ResampleLoop.RemoveSamples | alsaloop/pcmjob.c:801-829 | with two buffers, catching up drops the oldest frames on the capture side but the newest on the playback side |
| Threads.RanksKeepOrder | alsaloop/alsaloop.c:894-908 | the new ids keep equality and order between any two non-negative ids, and are below the number of different ids |
| Threads.RanksAreDense | alsaloop/alsaloop.c:894-908 | no number below the number of different ids is left out |
| Threads.SortThreadIds | alsaloop/alsaloop.c:894-908 | the relabelling loop, which overwrites the ids it compares, ends and replaces every id by its rank |
| Threads.ThreadsPartitionJobs | alsaloop/alsaloop.c:909-932 | every job with a non-negative id is in exactly one thread at one place, no thread is empty and the order inside a thread is kept; a job is in a thread if and only if its id is not negative |
| Threads.EveryJobHasOneThread | alsaloop/alsaloop.c:553-557 | whatever thread numbers are asked for, negative ones included, every job is in exactly one thread |
| Threads.OwnThreadIff | alsaloop/alsaloop.c:553-557 | a job that asks for a unique thread is alone in its thread, if and only if no job asks for the number it is given |
| Threads.ParseJobs | alsaloop/alsaloop.c:553-557 | the jobs get the ids of the numbers asked for, by their position |
| Threads.FillThreads | alsaloop/alsaloop.c:920-932 | each thread lists the jobs of its id in their original order |
| Threads.Distribute | alsaloop/alsaloop.c:894-932 | renumbering and distribution: as many threads as different ids, thread k has the jobs whose id has rank k |
| Mapper.ExactPosition | axfer/mapper-single.c:19-39 | the 32-bit byte positions of the loops do not wrap for buffers below 4 GiB, and address exactly one sample |
| Mapper.SpreadByte | axfer/mapper-single.c:19-61 | byte b of frame j of channel i is byte (j times the channels plus i) times the width plus b of the interleaved frames |
| Mapper.InterleavedIsUnique | axfer/mapper-single.c:41-61 | the interleaved frames are determined by the channels |
| Mapper.ChannelsAreUnique | axfer/mapper-single.c:19-39 | the channels are determined by the interleaved frames |
| Mapper.CopyChannel | axfer/mapper-single.c:19-39 | the inner loop copies one channel, changes no sample of another one and no byte behind the frames |
| Mapper.Deinterleave | axfer/mapper-single.c:19-39 | the channels hold the samples of the frames, for any width, number of channels and frames, and nothing behind them is touched |
| Mapper.Interleave | axfer/mapper-single.c:41-61 | the frames hold the samples of the channels, and nothing behind them is touched |
| Mapper.RestoreFrames | axfer/mapper-multiple.c:21-72 | deinterleaving then interleaving restores every byte of the frames, also with several containers of one sample per frame |
| Mapper.RestoreChannels | axfer/mapper-multiple.c:21-72 | interleaving then deinterleaving restores every byte of the channels |
| FrameCache.DropCommutesWithDeinterleave | axfer/frame-cache.c:11-46 | dropping frames and deinterleaving commute: both cache layouts still hold the same frames |
| FrameCache.InterleavedCache.Reduce | axfer/frame-cache.c:11-27 | exactly the oldest frames are dropped despite the overlapping move, and the write pointer is just behind the rest |
| FrameCache.InterleavedCache.Fill | axfer/frame-cache.h:37-41 | new frames that are stored at the write pointer and counted continue the cached ones if the write pointer is in place; a second fill would need another reduction first |
| FrameCache.ChannelCache.Reduce | axfer/frame-cache.c:29-46 | the same in every channel |
| FrameCache.ChannelCache.ReduceContents | axfer/frame-cache.c:29-46 | from all channels the same number of the oldest frames is gone |
| Container.Context.RecursiveRead | axfer/container.c:42-70 | either the whole range is filled with the next bytes of the file, or the end was met and flagged, or a call failed; how transfers were cut is not visible |
| Container.Context.RecursiveWrite | axfer/container.c:72-95 | all bytes are written in order at the position, or a call failed |
| RiffWave.SearchIsUnambiguous | axfer/container-riff-wave.c:47-75 | the first match over wave format, width, physical width and byte order is the format that was built, for every format of the table |
| RiffWave.SearchFindsCode | axfer/container-riff-wave.c:510-536 | the builder finds a wave format code for exactly the formats of the table |
| RiffWave.WidthComesBack | axfer/container-riff-wave.c:327-341 | the physical width is recovered by dividing bit rate by rate and channels |
| RiffWave.FieldsComeBack | axfer/container-riff-wave.c:425-458 | the fields of a built format subchunk are read back and agree with each other |
| RiffWave.UnknownChunksAreSkipped | axfer/container-riff-wave.c:226-325 | any number of unknown subchunks leaves the parsed state and the position behind them as they would be without |
| RiffWave.FmtIsParsed | axfer/container-riff-wave.c:185-213 | extension bytes in the format subchunk change nothing |
| RiffWave.FileParsesBack | axfer/container-riff-wave.c:128-341 | a WAVE file parses back to format, channels, rate and byte count, in both byte orders and with any unknown subchunks and extension bytes, and parsing stops exactly at the first frame byte |
| RiffWave.HeaderIsFile | axfer/container-riff-wave.c:398-508 | the header of the builder is such a file |
| RiffWave.HeaderBytes | axfer/container-riff-wave.c:398-508 | the 44 bytes of the header: the four fixed names, and the value and place of each number, in the byte order of the sample format |
| RiffWave.BadRateIsInvalid | axfer/container-riff-wave.c:185-213 | a file whose byte rate is not frame size times rate is refused, in both byte orders |
| RiffWave.TruncatedDividesIff | axfer/container-riff-wave.c:226-396 | of the files laid out like those of the builder, with any unknown subchunks, and cut off at any length behind the magic, the parser divides by zero on those that end in front of the end of the format fields, and no others |
| RiffWave.TruncatedHeaderDividesIff | axfer/container-riff-wave.c:343-396 | for a file of the builder these are the ones of less than 36 bytes |
| RiffWave.PaddingIsUnderstoodIffEven | axfer/container-riff-wave.c:226-325 | in both byte orders and for frames of any number, a padded unknown subchunk is passed correctly if and only if its length is even |
| RiffWave.OutOfStep | axfer/container-riff-wave.c:226-325 | one byte out of step, whatever the parser finds in the rest of the file is shorter than the frames |
| RiffWave.Parser.ParseOne | axfer/container-riff-wave.c:226-325 | one round of the scan is the scan function on the unread bytes |
| RiffWave.Parser.ParseSubchunks | axfer/container-riff-wave.c:226-325 | the scan loop ends with the result of the scan function, for every fragmentation of the input |
| RiffWave.Parser.PreProcess | axfer/container-riff-wave.c:343-396 | the parameters depend on the bytes of the file alone |
| RiffWave.Builder.WriteHeader | axfer/container-riff-wave.c:467-508 | the bytes written are the header |
| RiffWave.Builder.PreProcess | axfer/container-riff-wave.c:510-536 | a supported format yields its header at the start of the file |
| RiffWave.Builder.PostProcess | axfer/container-riff-wave.c:538-548 | the header is rewritten with the final byte count and the frames are left alone |
| RiffWave.RoundTrip | axfer/container-riff-wave.c:343-548 | a file written and read through arbitrarily cut transfers gives back format, channels, rate, byte count and frames |
| VocTime.BuildTimeConstant | axfer/container-voc.c:220-260 | table search and division give the code function, including division by zero for rate zero; every code stands for how often the rate goes into 256 or 1 MHz, those of the first table for one more |
| VocTime.ParseExtendedConstant | axfer/container-voc.c:262-303 | table search and division give the rate function for 16-bit codes: outside of the table, the rate is how often code distance times channels goes into 256 MHz, and inside how often the channels go into the rate of the table |
| VocTime.ParseV110Constant | axfer/container-voc.c:262-303 | for codes outside of the table the rate is how often 256 minus the code goes into 1 MHz, and for a code of the table or one just below it that of the table |
| VocTime.QuantiserIsStableIff | axfer/container-voc.c:220-303 | encoding, decoding, encoding and decoding gives the rate of decoding once, if and only if rate times channels modulo 2^32 is between 1 and 256000000 |
| VocTime.V110QuantiserIsStableIff | axfer/container-voc.c:246-301 | the same for the 8-bit code: it holds for every rate but zero |
| VocTime.TablesFollowDivision | axfer/container-voc.c:87-117 | the codes of both tables are those of the division, in the first one less one |
| VocTime.DividedRateIsStable | axfer/container-voc.c:262-303 | a rate decoded by division is decoded from its own code again |
| VocTime.ListedRateIsStable | axfer/container-voc.c:100-117 | so is a rate from the table, through both tables |
| VocTime.TableCodesAreSharp | axfer/container-voc.c:100-117 | next to a table code, division gives either the rate of the table or a different one for the neighbouring divisor |
| VocTime.TooFastIsUnstable | axfer/container-voc.c:220-260 | above 256 MHz the code wraps to zero, which is not stable |
| Voc.SizeComesBack | axfer/container-voc.c:208-218 | 24-bit size fields come back modulo 2^24 |
| Voc.LayoutBytes | axfer/container-voc.c:600-713 | which of the three layouts is written for which format, channels and rate, and the value and place of each field in it |
| Voc.FileHeaderBytes | axfer/container-voc.c:600-612 | the 26 bytes of the file header |
| Voc.NewBlockIff | axfer/container-voc.c:317-377 | for any bytes that begin with a 1.20 block: they are accepted exactly with the right header and one of four codes, with the rate, channels and size found at their places |
| Voc.OldBlockIff | axfer/container-voc.c:317-440 | the same for any bytes that begin with a block of frames of 1.10 |
| Voc.StereoRateComesBackIff | axfer/container-voc.c:632-657 | an extended stereo rate comes back if and only if it is at most 192000 |
| Voc.SizeSurvivesIff | axfer/container-voc.c:775-801 | any byte count survives its size field if and only if it is within the limit, and fits the field or is one of the last few of 32 bits |
| Voc.SizesUpToHalfFit | axfer/container-voc.c:715-765 | with the limit of the builder, 0x7ffff0 bytes fit for every frame size |
| Voc.FileParsesBackIff | axfer/container-voc.c:317-589 | a built file parses back to format, channels, rate and size in all three layouts, if and only if channels, rate and size fit their fields |
| Voc.SpinningIffEndless | axfer/container-voc.c:519-554 | the scan is said to spin if and only if, after any number of turns of the loop, there is another one |
| Voc.SpinsIff | axfer/container-voc.c:450-554 | exactly the byte sequences on which detection never ends |
| Voc.TruncatedSpinsIff | axfer/container-voc.c:519-713 | of the built files, cut off at any length, detection does not end on those of extended stereo that are cut behind at least one and at most eight bytes of the extended block |
| Voc.Builder.Decide | axfer/container-voc.c:715-765 | which version and layout is used, and which requests are refused |
| Voc.Builder.WriteBlocks | axfer/container-voc.c:680-713 | the bytes written are the header and blocks of the layout |
| Voc.Builder.PostProcess | axfer/container-voc.c:767-813 | terminator and final size are put in place and nothing else changes |
| Voc.Parser.OneBlock | axfer/container-voc.c:490-554 | one turn of the loop, also at the end of the file, is the turn function on the unread bytes |
| Voc.Parser.DetectBlocks | axfer/container-voc.c:519-554 | the block scan is the scan function on the unread bytes, for all block types and every fragmentation |
| Voc.Parser.PreProcess | axfer/container-voc.c:556-589 | the parameters depend on the bytes of the file alone |
| Voc.RoundTrip | axfer/container-voc.c:317-813 | writing and reading through arbitrarily cut transfers gives back everything for up to 255 channels, 0x7ffff0 bytes and 192000 Hz in extended stereo |
| VocSkip.SkippedBlockIff | axfer/container-voc.c:450-554 | a built file with one block of silence, marker, text or repetition in front is parsed as without it, if and only if the last four bytes of its payload read as a skipped block of four bytes |
| Utf8.ValidIffEncoding | alsactl/init_utils_string.c:29-150 | a multi-byte sequence is taken for a character if and only if it is the RFC 3629 section 3 encoding of an accepted character number, so in shortest form, no surrogate, no U+FDD0..U+FDEF and not ending in FFFF |
| Utf8.AcceptedIsEncoding | alsactl/init_utils_string.c:120-150 | what is accepted is the encoding of some accepted character |
| Utf8.EncodingIsAccepted | alsactl/init_utils_string.c:120-150 | every such encoding is accepted, whatever follows it |
| Utf8.SamePrefixSameLen | alsactl/init_utils_string.c:120-150 | only the bytes of the character itself are looked at |
| Utf8.SanitisedIsTrusted | alsactl/init_utils_string.c:152-183 | what the sanitiser leaves is whitelisted or valid text only |
| Utf8.TrustedIsUnchanged | alsactl/init_utils_string.c:152-183 | such text is left alone |
| Utf8.FrontIsAscii | alsactl/init_utils_string.c:152-183 | an ASCII character is kept if it is a letter, a digit or one of fourteen others, and replaced by an underscore if not |
| Utf8.FrontIsCharacter | alsactl/init_utils_string.c:152-183 | the encoding of an accepted character number is kept |
| Utf8.FrontIsOther | alsactl/init_utils_string.c:152-183 | any other byte is replaced by an underscore |
| Utf8.SanitisedIsIdempotent | alsactl/init_utils_string.c:152-183 | cleaning twice is cleaning once, and the fixed points are exactly the trusted texts |
| Utf8.ToUnichar | alsactl/init_utils_string.c:50-87 | the decoding loop, and when it refuses |
| Utf8.ValidUnichar | alsactl/init_utils_string.c:120-150 | the answer is the length of the character, or none, and no byte behind the terminating zero is needed |
| Utf8.ReplaceUntrusted | alsactl/init_utils_string.c:153-183 | the string is replaced by its sanitised form of the same length and the result is the number of bytes that changed |
| Hex.NumbersOfHexText | alsactl/state.c:255-572 | numbers written with a fixed count of hexadecimal digits come back |
| Hex.HexTextOfNumbers | alsactl/state.c:162-187 | words that were read are written as the text they were read from, in lower case |
| Hex.DigitTable | alsactl/alsactl.h:115-126 | the values of the sixteen digits in both cases |
| Tlv.TlvToStr | alsactl/state.c:144-160 | the words are written unless their number reaches 64 |
| Tlv.StrToTlv | alsactl/state.c:162-187 | a text is accepted if and only if it is a whole number of at most 64 words of hexadecimal digits, and gives these words |
| Tlv.TlvComesBack | alsactl/state.c:144-187 | the text of any TLV that is saved at all is accepted and gives its words |
| Tlv.RoundTrip | alsactl/state.c:144-187 | saving and reading TLV words as a program returns them |
| Config.AtoiNumStr | alsactl/state.c:73-78 | a number printed as a node name is read back by atoi |
| Config.DecimalPlaces | alsactl/state.c:73-78 | digits have their usual values and each place is worth ten times the next |
| Config.NumStrInjective | alsactl/state.c:73-78 | different numbers have different node names |
| ControlState.ElemComesBack | alsactl/state.c:706-810 | one value comes back if and only if it survives; otherwise nothing, or another value, is set |
| ControlState.ValuesComeBackIff | alsactl/state.c:1155-1530 | the value vector saved for any count and kind of element is the one restored, strict or forced, if and only if every boolean is 0 or 1 and every enumerated value is the first of its name or fits an int |
| ControlState.ManyComeBackIff | alsactl/state.c:1488-1515 | the same for a compound of numbered children and its flags of what is set |
| ControlState.BytesComeBack | alsactl/state.c:1440-1469 | bytes and IEC958 values always come back |
| ControlState.BooleanTexts | alsactl/state.c:706-742 | a boolean is saved as one of two texts, and four texts are understood |
| ControlSave.SearchItem | alsactl/state.c:486-499 | searching an enumerated value among the numbered items finds the item at its position |
| ControlSave.SaveElem | alsactl/state.c:463-507 | one value as a node: text, integer or item name |
| ControlSave.SaveValue | alsactl/state.c:431-563 | the loops build the node of the whole vector without ever using a name twice |
| ControlSave.GetControl | alsactl/state.c:255-572 | the node has identity, values and comment, decibels of the values included; an unreadable element has none; it fails if and only if the driver does not answer for the element, its values, one of its items, or the decibels of one of its values |
| ControlRestore.EnumeratedOf | alsactl/state.c:744-786 | an item name is taken for its first position, and for none if a name in front of it cannot be queried |
| ControlRestore.RestoreKid | alsactl/state.c:1490-1508 | one child sets its index unless it is out of range, set or not convertible; strict mode stops at an error |
| ControlRestore.RestoreKids | alsactl/state.c:1488-1515 | strict mode succeeds if and only if the children come in order without a repeated or foreign index and set every index; each value is that of the first child that sets it |
| ControlRestore.RestoreBytes | alsactl/state.c:1440-1469 | the digits are accepted if and only if all are hexadecimal, and give the bytes |
| ControlRestore.RestoreValue | alsactl/state.c:1433-1515 | the values to be written, or an error, are those of the restoring function |
| ControlMatch.ParseConfigId | alsactl/state.c:1231-1320 | it succeeds if and only if every field has its type; of several fields of a name the last counts |
| ControlMatch.IdComesBack | alsactl/state.c:1231-1320 | the identity that was saved is read back, together with the value and the comment |
| ControlMatch.IfaceIndexOf | alsactl/state.c:677-704 | the name of an interface is found as that interface, ignoring case |
| ControlMatch.InactiveIff | alsactl/state.c:812-829 | the saved access text contains "inactive" if and only if the element is |
| ControlMatch.IgnoredIff | alsactl/state.c:1423-1430 | nothing is written exactly for elements that were inactive when saved, are inactive now, or cannot be written |
| ControlMatch.FoundIff | alsactl/state.c:1350-1411 | for a driver that describes elements by number and by identity in the same way, a saved element finds exactly the one that has its number and identity, and by force the one that has its identity |
| ControlRange.RangeComesBack | alsactl/state.c:855-880 | the saved range text is read back |
| ControlRange.RangeIsSame | alsactl/state.c:1090-1153 | on an unchanged element no range mismatch and no conversion of values takes place |
| ControlRange.CommentSearch | alsactl/state.c:181-253 | range and decibels are found in a saved comment under their names |
| ControlRange.RangeDecides | alsactl/state.c:1090-1153 | values are refused exactly when both ends of the saved range differ from those of the element, unless by force, and converted exactly when both ranges in numbers and decibels are there and not empty, and one of them differs |
| ControlRange.ValueMoved | alsactl/state.c:1054-1153 | every integer that is converted becomes the value of the element nearest to the answer of the driver for the decibels saved for it, or for those at its place of the saved range; all others stay |
| ControlRange.ConvertValue | alsactl/state.c:1054-1153 | the loop converts in place exactly the integers, from saved decibels or those at the same place of the old range |
| ControlRange.AlwaysStableIff | alsactl/state.c:1054-1083 | converting a node twice is converting it once, whatever the driver answers, if and only if it is not converted, its decibels were saved, or all values of both ranges have its decibels |
| ControlMatch.SetElem | alsactl/state.c:1413-1530 | strict restoring is refused when both ends of the saved range have moved; when one of the ranges differs, every integer becomes the value of the element nearest to the answer of the driver for its decibels; then the outcome follows from activity, access, values and whether the driver takes them |
| ControlMatch.SetControl | alsactl/state.c:1322-1530 | the outcome for any node and the node left in the tree, from its fields, the element of its number or identity, its values, missing ones included, and whether the driver takes them |
| ControlMatch.CheckRunPredicts | alsactl/state.c:1809-1816 | two runs over a node, on the tree and the driver that the first leaves: the checking run writes no values; unless forced, an error in one is an error in the other, and the writing run fails if and only if the checking run does or the driver refuses the values it computed, if the decibels of converted values were saved; then it does what it would have done alone; forced, it has no error if the checking run has none |
| ControlMatch.ForcedFailsIff | alsactl/state.c:1322-1530 | a forced writing run fails for a node if and only if there is no element for it, its byte string is malformed, or the driver refuses the values |
| ControlMatch.SavedIsKept | alsactl/state.c:181-253 | the tree of every element that is saved keeps the decibels of its values wherever a load could convert them |
| ControlMatch.SaveAndRestore | alsactl/state.c:255-572 | saving and restoring on an unchanged card hands the original vector to the driver if and only if every value survives, for active writable elements; inactive or read-only ones are not written; without a name, forced restoring fails |
| DaemonCache.AddedAt | alsactl/daemon.c:196-217 | adding changes one slot only, the first free one, and the list grows only if there is none |
| DaemonCache.AddedHolds | alsactl/daemon.c:196-217 | adding keeps lists duplicate-free when the id was not there |
| DaemonCache.IdList.InList | alsactl/daemon.c:169-182 | found if and only if some slot holds the id |
| DaemonCache.IdList.RemoveFromList | alsactl/daemon.c:184-194 | exactly the slots of the id become free |
| DaemonCache.IdList.AddToList | alsactl/daemon.c:196-217 | the list with the id in its first free slot |
| DaemonCache.MemoryIsLearnt | alsactl/daemon.c:219-274 | an element is remembered if and only if the driver answered since it was last announced, with the first such answer |
| DaemonCache.FirstEventIff | alsactl/daemon.c:241-274 | of the 2^32 event masks those that count as a change of an unknown element, and when it can be written |
| DaemonCache.AskedAgainIff | alsactl/daemon.c:241-274 | the event masks behind which the driver is asked again |
| DaemonCache.ReactionIsFirstAnswer | alsactl/daemon.c:219-274 | the answer on any use, for any history of events, is the first answer of the driver since the last announcement, or no |
| DaemonCache.ExactIffNotStale | alsactl/daemon.c:219-274 | the answer equals a query of the driver if and only if the element is as writable as when it was first asked |
| DaemonCache.CacheIsTransparent | alsactl/daemon.c:219-274 | if changes of writability are announced by INFO or REMOVE before the next use, the cache answers as the driver does |
| DaemonCache.UnannouncedChangeIsMissed | alsactl/daemon.c:219-239 | a history with a wrong answer |
| DaemonCache.Card.CheckLists | alsactl/daemon.c:219-239 | the lists stay disjoint and duplicate-free and hold exactly the memory, and the answer is that of the memory |
| DaemonCache.Card.CardEvents | alsactl/daemon.c:241-274 | all events read are accounted for in the lists, and the result tells whether any was reacted to |
| DaemonLoop.SavedAfterRequestIff | alsactl/daemon.c:361-461 | when the loop is left by its condition, a save has begun after a save_and_quit request if and only if one was due or about to begin right after the signal |
| DaemonLoop.FirstRequestIsSaved | alsactl/daemon.c:57-61 | the first request is always followed by a save |
| DaemonLoop.SecondRequestIsLost | alsactl/daemon.c:57-61 | a run in which a second request has no save behind it |
| DaemonLoop.InvHolds | alsactl/daemon.c:361-461 | after a request the loop goes on only as long as the save is due, in every interleaving |
| DaemonLoop.PendingChange | alsactl/daemon.c:434-450 | the change flag and time stand for the oldest change that is not saved |
| DaemonLoop.TimedSaveIffDue | alsactl/daemon.c:446-450 | the timed check saves if and only if the oldest unsaved change is a period old, however many changes came later |
| DaemonLoop.PeriodicSaveIsDue | alsactl/daemon.c:446-450 | every save without a request was decided on because an unsaved change was a period old |
| DaemonLoop.CardsBeforePoll | alsactl/daemon.c:361-395 | in every run the cards have been added before the loop waits for the first time |
| DaemonLoop.RescanAfterRequestIff | alsactl/daemon.c:384-395 | behind a rescan request the next test of the flag adds the cards, if and only if the request did not arrive between adding them and clearing the flag |
| Json.StringComesBackIff | alsaucm/dump.c:237-259 | a printed string is read back by RFC 8259 section 7 if and only if it has no backslash and no control character |
| Json.TextComesBackIff | alsaucm/dump.c:263-414 | a text in the layout of the renderer is parsed (RFC 8259 sections 2, 4, 5 and 7) to the value it was printed from, if and only if no string in it has a backslash or a control character |
| Json.ObjectText | alsaucm/dump.c:261-442 | the punctuation and layout of an object with a member |
| Json.ArrayOfTwoText | alsaucm/dump.c:444-479 | the punctuation and layout of an array |
| UcmDump.Jesc | alsaucm/dump.c:237-259 | what is shown of a string is written in quotation marks with its own ones escaped, and nothing else; that stays inside the buffer of 256 characters if and only if it fits |
| UcmDump.ShownIffFewQuotes | alsaucm/dump.c:237-259 | the whole string is shown if and only if it has at most 126 quotation marks |
| UcmDump.ShownIsCut | alsaucm/dump.c:237-259 | what is shown is the string, or its part in front of the 127th quotation mark |
| UcmDump.Renderer.Devices | alsaucm/dump.c:263-327 | the devices of a verb are printed as members with a comma exactly between two of them, whatever each of them prints inside |
| UcmDump.Renderer.RenderDevlist | alsaucm/dump.c:444-479 | a list is printed as a member with its items, or left out if empty |
| UcmDump.Renderer.RenderValues | alsaucm/dump.c:481-523 | the values are printed as a member, or left out if there are none |
| UcmDump.Renderer.RenderDevice | alsaucm/dump.c:525-547 | the members of a device continue those printed before, commas included; which they are is said by UcmDump.DeviceReads |
| UcmDump.DeviceReads | alsaucm/dump.c:525-547 | looking in a device for "Comment", "SupportedDevices", "ConflictingDevices" and "Values" finds exactly its strings, nothing where there are none, and no other names |
| UcmDump.VerbReads | alsaucm/dump.c:549-625 | the same for "Comment", "Devices" and "Modifiers" of a verb, and each of these |
| UcmDump.Renderer.OneVerb | alsaucm/dump.c:549-625 | a verb with its devices and modifiers is printed as one member, all inner flags reset |
| UcmDump.Renderer.Render | alsaucm/dump.c:549-625 | for all strings, the whole output equals that of a recursive printer on the tree, all flags are reset, and some string was written behind its buffer if and only if one does not fit. A program that parses it finds, under the names in the source and nowhere else, every verb, device and modifier, its comment, its supported and conflicting devices and its values, each left out exactly when it is empty |
| UcmDump.DumpComesBackIff | alsaucm/dump.c:549-625 | parsing the output gives the tree of verbs, devices, modifiers, lists and values, if and only if no string that is shown has a backslash or a control character |
| SplitLine.SplitReadsWriting | amixer/amixer.c:1722-1761 | tokens written in any mixture of bare, escaped and quoted parts, with either quote, any of six kinds of white space between and a comment with # or ! behind, are read back, up to the limit; all these characters are named one by one |
| SplitLine.EscapeJoinSplit | amixer/amixer.c:1722-1761 | escaping every character, joining with blanks and splitting returns the tokens |
| SplitLine.ScanInPlace | amixer/amixer.c:1736-1757 | the inner loop computes the token in place; the write cursor does not pass the read cursor and nothing outside the token is touched |
| SplitLine.ReadToken | amixer/amixer.c:1734-1758 | a token becomes a zero-terminated string; what remains of the line gives the same further tokens |
| SplitLine.FoundKept | amixer/amixer.c:1722-1761 | no earlier token is touched by later ones |
| SplitLine.Split | amixer/amixer.c:1722-1761 | the strings left in the buffer are exactly the tokens of the line, at the returned positions |
| MixerControls.HasMergedCswitch | alsamixer/mixer_controls.c:99-123 | the loops decide whether the capture switch is shown with playback |
| MixerControls.CountForElem | alsamixer/mixer_controls.c:170-198 | the count for an element is the number of its controls, in every view mode |
| MixerControls.MakeHalf | alsamixer/mixer_controls.c:347-358 | after the fix-up a second channel never comes without a first, and the channels are those that are there, in order |
| MixerControls.CreatePairs | alsamixer/mixer_controls.c:286-371 | the loop over pairs creates one control for each pair that has a channel, marks them if there are several, and touches no other control but the front control of the other side, which it marks if this side has none; without any it follows a null pointer |
| MixerControls.CreateForElem | alsamixer/mixer_controls.c:215-456 | the controls filled for an element are those to be seen, as many as counted, unless the code follows a null pointer, for which the exact condition is given |
| MixerControls.CreateControls | alsamixer/mixer_controls.c:492-512 | for every list of elements and view mode, either some element makes the code follow a null pointer, or the counting pass equals the creating pass (the assertion holds) and every control shows what it should |
| MixerControls.SecondChannelHasAFirst | alsamixer/mixer_controls.c:347-358 | the flags of a control tell how many channels it has, the second only with the first |
| MixerControls.EveryChannelOnce | alsamixer/mixer_controls.c:31-47 | the controls of a side with separate volumes or switches have each supported channel once, in order, a merged capture switch included |
| MixerControls.MergedIff | alsamixer/mixer_controls.c:99-123 | channel by channel, when the capture switch is shown with playback |
| MixerControls.EveryCaptureSwitchOnce | alsamixer/mixer_controls.c:215-456 | with everything in view, separate capture switches are shown for every channel once, in order, be they merged or not |
| MixerControls.EveryPlaybackSwitchOnce | alsamixer/mixer_controls.c:250-372 | so are separate playback switches in the views with playback |
| MixerControls.MultiIff | alsamixer/mixer_controls.c:361-368 | controls are marked as belonging together if there are several, or the only one is not for the front channels |

## Left out

- PcmJob.Loopback.Session: what xrun_sync does after an xrun, which drops frames and inserts silence, and the restart of a job; the session ends with the wake-up in front of them, and where readit or writeit returns an error code, which the code goes on to add to a frame count.
- ResampleSession.ResampleJob.Session: the same for xrun_sync and the restart; error codes do no harm there.
- The pitch control and statistics of alsaloop.
- The resampler itself: it is any consumer of a prefix of its input; its output area is modelled in frames, and where it starts only by the lemma on floats.
- PcmJob.Loopback.Transfer: the rounds behind one in which readit or writeit returned an error code; a device that stays suspended is asked again a finite number of times.
- Single-container use of the multiple mapper with more than one sample per frame; frame caches in front of a device are reduced and filled, their transfer to the device is not modelled.
- The interrupted flag of axfer's transfers, the size of the outer RIFF chunk, and frames counted against the limit of a container.
- VocSkip.SkippedBlockIff: files without frames, and more than one such block.
- Voc.Parser.PreProcess: a block to be skipped whose size is smaller than its header ends the model, since the C code has no defined effect there; block headers that the file does not reach are taken as zero bytes.
- container-au, aplay, option parsing, logging and allocation failures.
- Utf8.ReplaceUntrusted: the number of replaced bytes is not cut to an int.
- ControlSave.GetControl: what was added to the tree in front of a failing query.
- ControlMatch.SetControl: node names that the code knows are constructors, decimal numbers in a range text are read without octal and hexadecimal prefixes, atoi does not overflow, type tests of alsa-lib's accessors are strict, decibels are not limited to 64 bits; which elements can be added, what decibels stand for and which values are taken is up to the driver, which answers the same in every run but for elements that were added.
- ControlState.Restored: forcing an empty compound gives no value, where the code reads the head of an empty list.
- The text syntax of state files, which belongs to alsa-lib, and everything between the tree and the file.
- DaemonCache: the numeric id of an element, which is not compared; failing allocations.
- DaemonLoop: opening and closing of cards and the pid file; leaving the loop on an error ends without a save.
- UcmDump.Renderer.Render: all queries to the use case manager succeed; writing behind a buffer is recorded, and damages nothing else; the text renderer.
- Json.ParseText: numbers and literals, which the renderer never prints, are not parsed.
- SplitLine.Split: one line as getline returns it, with a newline at its end at most.
- MixerControls.CreateForElem: names of controls.
