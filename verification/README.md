# Verified models of trx-rs

trx-rs is a radio control stack: servers that drive rigs and decode what they hear, and clients
that merge several servers. This project models the algorithms and protocols inside it that
carry state or arithmetic, and proves what they are for.

- **AIS link layer** (`Words`, `AisCrc`, `AisResidue`, `AisLink`, `AisFields`, `AisStatic`,
  `AisDecoder`, `AisDamage`). Machine words are bit sequences, lowest bit first. `AisDecoder.Decoder` is the
  decoder object, its methods proved against a symbol machine; the lemmas are about that machine:
  it inverts the encoder of the program's tests (FCS, bit stuffing, shared flags, NRZI), it falls
  into step from any state on two flags, line polarity and chunking do not matter, and position
  reports and static data come out field by field. The table-driven CRC equals the bit-at-a-time
  one, which gives the errors it detects; a frame so damaged gives no message, and the others do.
- **PSK Reporter uplink** (`Octets`, `Ipfix`, `PskReporter`, `PskCollector`, `PskClient`,
  `PskUplink`). `Ipfix` is a collector that knows only RFC 7011 (sections 3.1, 3.3, 3.4 and 7):
  sets, templates, template-driven records, variable-length values. The hand-written packets,
  templates included, are read back by it, one by one and over whole runs of the client.
- **Civil dates** (`BuildDate`). The days-to-date arithmetic against a proleptic Gregorian
  calendar defined by leap years and month lengths.
- **Server decode pipeline** (`History`, `HistoryCounter`, `HistoryStore`, `ResetProtocol`,
  `ResetRuns`, `Ft2`, `Ft2Dedupe`). History queues over whole runs; the shared entry counter and the reset protocol as
  state machines over every interleaving; the FT2 window and duplicate suppression.
- **Framing, lines, batches, merging, passes** (`Basics`, `Framing`, `HistoryReplay`, `LineReader`,
  `RequestBatch`, `RigMapping`, `RigMerge`, `PassScan`).

`dafny verify dfyconfig.toml` checks the whole project.

## Where the program differs from what one would expect

Each of these is proved, with the exact condition where there is one.

- Padding of three octets behind the PSK Reporter receiver record is as long as the smallest
  receiver record, so a collector reads one more, empty, receiver record exactly when the three
  strings and their length octets leave one over at division by four
  (`PskCollector.ReceiverSetParsed`). Padding is never read as a spot.
- The AIS decoder yields no frame for an empty payload (`AisLink.FrameReceived`).
- `utc_ymd_from_unix_secs` returns the true date exactly for years that fit into 32 bits
  (`BuildDate.DateIsRight`).
- A comment says that a batch of requests runs in FIFO order; with coalesced spectrum requests it
  does if and only if at most one other request follows the second of them
  (`RequestBatch.InOrderIff`). The model follows the code.
- The cached rig list is not renewed when only uncompared parts of a rig's state have changed: it
  holds the snapshots just received exactly under the condition of `RigMerge.FreshIff`. A rig that
  starts transmitting goes unseen (`RigMerge.TransmittingGoesUnseen`).
- Entries loaded from disk are not counted: over a run the entry counter is the sum of the lengths
  if and only if none was loaded (`HistoryCounter.ExactIffNothingLoaded`).
- Loading keeps the order of time, with a clock that stands still, only under a condition on
  entries older than the clock can represent (`HistoryStore.OrderAfterRestart`); with one that
  moves, entries can change places (`HistoryStore.MovingClockReorders`).
- A reset does not keep every earlier message out of the history that it has cleared: a message in
  the history is from after a published reset if and only if its check came after the publication,
  whenever the history was cleared (`ResetProtocol.HistoryFreshIff`). A run from the initial state
  that ends with a stale message is `ResetProtocol.StaleMessageInHistory`.
- A retune while the rig is briefly in another mode invalidates nothing, so one message can be made
  from samples of two frequencies (`ResetProtocol.SilentRetuneMixesSamples`), which otherwise cannot
  happen (`ResetRuns.OtherFrequency`, `ResetRuns.OneFrequency`); and FT8, FT4 and FT2
  read the base frequency after the check (`ResetProtocol.BaseFrequencyIsWrong`). These two are all
  that makes a frequency wrong (`ResetProtocol.WrongFrequency`).
- The sequence numbers of the PSK Reporter packets count spots. By RFC 7011, section 3.1, they
  would count all data records, also the receiver records in every packet, and so no packet's
  number follows from that of the one before (`PskClient.NeverFollows`).

## Model

| member | source | states |
|---|---|---|
| AisCrc.BuildTable | src/decoders/trx-ais/src/lib.rs:15-33 | the two loops fill entry i with eight clocks of the bit-serial register started at i |
| AisCrc.Crc16Ccitt | src/decoders/trx-ais/src/lib.rs:35-41 | the table-driven loop computes the bit-at-a-time CRC of every byte string |
| AisCrc.TableStepIsEightClocks | src/decoders/trx-ais/src/lib.rs:38 | one table step takes in a whole byte as eight clocks do |
| AisCrc.CrcOkIsGoodFcs | src/decoders/trx-ais/src/lib.rs:221-224 | a frame checks if and only if the register over payload and FCS ends at one constant (RFC 1662 Appendix C.2) |
| AisResidue.GoodFcsIs | src/decoders/trx-ais/src/lib.rs:221-224 | that constant is 0xF0B8, the good FCS of RFC 1662 Appendix C.2 |
| AisCrc.UndetectedErrors | src/decoders/trx-ais/src/lib.rs:195-231 | exactly which errors in a good frame still check: those whose own register run from zero ends at zero |
| AisCrc.BurstsDetected | src/decoders/trx-ais/src/lib.rs:195-231 | any non-zero error burst within 16 transmitted bits fails the check, for frames of any length |
| AisCrc.OddErrorsDetected | src/decoders/trx-ais/src/lib.rs:195-231 | any odd number of wrong bits fails the check |
| AisLink.NrziDecodes | src/decoders/trx-ais/src/lib.rs:147-149 | symbols of an NRZI-encoded bit string drive the machine as the bits themselves |
| AisLink.DestuffsData | src/decoders/trx-ais/src/lib.rs:156-193 | de-stuffing undoes the bit stuffing of the encoder (lines 409-425) from any point inside a frame |
| AisLink.ClosingFlag | src/decoders/trx-ais/src/lib.rs:164-174 | a flag hands over the collected bits plus the flag's own zero as a frame and opens the next one |
| AisLink.AbortDropsFrame | src/decoders/trx-ais/src/lib.rs:157-162 | seven ones or more, and the zero behind them, drop the open frame |
| AisLink.AbortedFrameLost | src/decoders/trx-ais/src/lib.rs:147-193 | a frame aborted at any point delivers nothing, whatever data follows up to the next flag, which opens a frame |
| AisLink.BytesReceived | src/decoders/trx-ais/src/lib.rs:195-231 | any bytes, with up to seven bits behind them, give a frame exactly from three bytes on: the bytes but the last two, and whether they check |
| AisLink.FrameReceived | src/decoders/trx-ais/src/lib.rs:195-231 | payload, FCS and the extra zero give back the payload with a good check, and nothing for an empty payload |
| AisLink.FramesDecoded | src/decoders/trx-ais/src/lib.rs:147-231 | payloads between single shared flags come out exactly and in order, and the machine stays in step |
| AisLink.TransmissionDecoded | src/decoders/trx-ais/src/lib.rs:147-231 | for every list of payloads an idle decoder fed the encoded transmission yields exactly the non-empty ones, in order, all checking |
| AisLink.TwoFlagsSync | src/decoders/trx-ais/src/lib.rs:147-193 | from any decoder state two flags on a line of either level leave it in a frame with no stale bits |
| AisLink.AnyStateDecodes | src/decoders/trx-ais/src/lib.rs:147-231 | from any state and level, what follows two flags is received completely |
| AisLink.PolarityInvisible | src/decoders/trx-ais/src/lib.rs:147-193 | inverting the line changes no frame, for any symbols and state |
| AisLink.RunSymbolsAppend | src/decoders/trx-ais/src/lib.rs:108-111 | splitting the symbol stream changes nothing |
| AisLink.EarlierFramesInvisible | src/decoders/trx-ais/src/lib.rs:164-169 | frames already delivered do not influence later ones |
| AisFields.BytesToMsbBits | src/decoders/trx-ais/src/lib.rs:304-312 | the two loops list the bits of every byte, highest first |
| AisFields.PackUnpacks | src/decoders/trx-ais/src/lib.rs:304-312 | a packed bit string is listed back as it was |
| AisFields.GetUint | src/decoders/trx-ais/src/lib.rs:314-323 | the value of a field inside the message, none outside it, with no bit lost in 32 |
| AisFields.GetInt | src/decoders/trx-ais/src/lib.rs:325-336 | two's complement at every width from 1 to 31, in wrapping 32-bit arithmetic |
| AisFields.FieldThere | src/decoders/trx-ais/src/lib.rs:314-336 | exactly which fields are there: inside the message, not empty, and not too wide |
| AisFields.SignedOfBits | src/decoders/trx-ais/src/lib.rs:325-336 | reading two's complement undoes writing it, at every width |
| AisFields.FieldRead | src/decoders/trx-ais/src/lib.rs:314-336 | every field of any layout is read back at its offset, unsigned and signed |
| AisFields.TextFieldReadBack | src/decoders/trx-ais/src/lib.rs:363-387 | a six-bit text field with filler reads back as the text without the spaces around it: as the text itself if and only if it is not empty and has none |
| AisFields.TrimmedIs | src/decoders/trx-ais/src/lib.rs:381-387 | trimming takes off exactly the spaces in front and behind |
| AisFields.CoordinateLimits | src/decoders/trx-ais/src/lib.rs:354-361 | a coordinate is given exactly when it is strictly inside the limit |
| AisFields.AcceptedIff | src/decoders/trx-ais/src/lib.rs:234-302 | exactly which frames give a message: those that check, with five bytes and the bits their type needs |
| AisFields.AcceptedHeader | src/decoders/trx-ais/src/lib.rs:240-268 | type, repeat indicator and identity of every message are the numbers in its first 38 bits, the rest is from the frame |
| AisFields.AcceptedParts | src/decoders/trx-ais/src/lib.rs:270-299 | which parts a message of each type has, short ones and other types included |
| AisFields.ReportReadFrom | src/decoders/trx-ais/src/lib.rs:234-302 | every in-range report of types 1 to 3 and 18 parses back field by field, not-available codes as none, whatever follows its heading |
| AisFields.ReportReadBack | src/decoders/trx-ais/src/lib.rs:234-302 | so does the whole report at the layouts of ITU-R M.1371-5 Annex 8 |
| AisStatic.StaticReadFrom | src/decoders/trx-ais/src/lib.rs:293-297 | of message 5, whole, broken off or followed by more: identity and the texts that are there in full, without the spaces around them |
| AisStatic.StaticReadBack | src/decoders/trx-ais/src/lib.rs:293-297 | message 5 parses back: identity, callsign, name and destination, each without the spaces around it |
| AisStatic.ExtendedReadFrom | src/decoders/trx-ais/src/lib.rs:285-292 | of message 19, from its heading on: identity, position, course, speed, heading, and the name if it is there in full |
| AisStatic.ExtendedReadBack | src/decoders/trx-ais/src/lib.rs:285-292 | message 19 parses back: identity, position, course, speed, heading and name |
| AisDecoder.Decoder.constructor | src/decoders/trx-ais/src/lib.rs:81-94 | the fresh decoder |
| AisDecoder.Decoder.Reset | src/decoders/trx-ais/src/lib.rs:96-106 | a reset restores the fresh state |
| AisDecoder.Decoder.BitsToFrame | src/decoders/trx-ais/src/lib.rs:195-231 | the byte assembly and check loops give the frame of the collected bits |
| AisDecoder.Decoder.ProcessSymbol | src/decoders/trx-ais/src/lib.rs:147-193 | the object's step is the symbol machine's |
| AisDecoder.Decoder.ProcessSample | src/decoders/trx-ais/src/lib.rs:139-144 | the phase loop takes floor((phase + 9600) / rate) symbols and keeps the rest |
| AisDecoder.Decoder.ProcessSamples | src/decoders/trx-ais/src/lib.rs:108-121 | a block drives the symbol machine and delivers exactly the messages of the frames it completed |
| AisDecoder.SymbolCount | src/decoders/trx-ais/src/lib.rs:139-144 | after n samples exactly floor((phase + 9600 n) / rate) symbols were taken: no drift |
| AisDecoder.SymbolIsSample | src/decoders/trx-ais/src/lib.rs:139-144 | which sample every symbol is taken from |
| AisDecoder.SymbolsAppend | src/decoders/trx-ais/src/lib.rs:108-145 | splitting the samples into blocks takes the same symbols |
| AisDecoder.SampledSymbols | src/decoders/trx-ais/src/lib.rs:139-144 | at a sample rate of at least 9600, a line sampled in any phase gives back exactly its symbols |
| AisDecoder.ChunkingInvisible | src/decoders/trx-ais/src/lib.rs:108-121 | feeding a stream in two blocks delivers the same messages as at once |
| AisDecoder.ReportsReceived | src/decoders/trx-ais/src/lib.rs:147-302 | reports sent after two flags come out field by field, in order, from any state and polarity, given the symbols |
| AisDecoder.ReportsSampled | src/decoders/trx-ais/src/lib.rs:108-302 | end to end from the slicer: the same given the samples, for any rate of at least 9600 and any phase of the clock |
| AisDamage.BadCheckRejected | src/decoders/trx-ais/src/lib.rs:234-237 | a frame that does not check gives no message |
| AisDamage.OnlyCheckedFrames | src/decoders/trx-ais/src/lib.rs:113-120 | the messages of any frames are those of the frames that check |
| AisDamage.DamagedFrameSilent | src/decoders/trx-ais/src/lib.rs:108-237 | a frame whose bytes have a burst of up to sixteen wrong bits, or an odd number of them, gives no message and leaves the decoder in step |
| AisDamage.DamagedReportsDropped | src/decoders/trx-ais/src/lib.rs:147-302 | of any list of reports, some so damaged, exactly the intact ones come out, in order, from any state and polarity |
| AisDamage.DamagedReportsSampled | src/decoders/trx-ais/src/lib.rs:108-302 | the same end to end from the slicer, as ProcessSamples delivers it |
| PskReporter.ReceiverTemplateIs | src/trx-reporting/src/pskreporter.rs:22-32 | the octets are an options template set for three variable-length elements, padded to 36 |
| PskReporter.SenderTemplateIs | src/trx-reporting/src/pskreporter.rs:34-49 | the octets are a template set of the eight sender fields |
| PskReporter.PushPrefixedString | src/trx-reporting/src/pskreporter.rs:516-524 | a string up to 254 octets is appended behind its length, a longer one refused |
| PskReporter.PadTo4 | src/trx-reporting/src/pskreporter.rs:500-506 | zeros up to a multiple of four |
| PskReporter.PushSpots | src/trx-reporting/src/pskreporter.rs:471-482 | the records of all spots in order, or the first string that is too long |
| PskReporter.Round | src/trx-reporting/src/pskreporter.rs:475 | the nearest integer, halves away from zero |
| PskReporter.AllWritableIsShort | src/trx-reporting/src/pskreporter.rs:516-520 | there is a too long string exactly when some field cannot be written |
| PskCollector.ReceiverSetParsed | src/trx-reporting/src/pskreporter.rs:457-465 | the receiver set parses to the receiver record, and to an empty second one exactly when the padding has three octets |
| PskCollector.SenderSetParsed | src/trx-reporting/src/pskreporter.rs:467-485 | the sender set parses to every spot in order, padding never to a record |
| PskCollector.NotCut | src/trx-reporting/src/pskreporter.rs:463-485 | a set's length fits 16 bits whenever the packet's does, so the cast loses nothing |
| PskCollector.BodySets | src/trx-reporting/src/pskreporter.rs:451-492 | whenever the packet's length fits 16 bits, it is made of sets whose lengths were not cut |
| PskCollector.SetsAligned | src/trx-reporting/src/pskreporter.rs:453-485 | every set, template sets included, is a multiple of four octets long |
| PskCollector.PacketDecoded | src/trx-reporting/src/pskreporter.rs:440-498 | whenever a packet is made, a template-driven collector recovers the receiver and every spot, frequency and SNR as clamped |
| PskCollector.PacketPassedOver | src/trx-reporting/src/pskreporter.rs:440-497 | a packet without templates gives a collector that has none its header and no records |
| PskCollector.MadeIff | src/trx-reporting/src/pskreporter.rs:440-497 | exactly when a packet is made: every string within 254 octets and all of it within 65,535; its exact length, and which error otherwise |
| PskClient.Client.constructor | src/trx-reporting/src/pskreporter.rs:406-415 | sequence 1, no packets, no templates sent |
| PskClient.Client.MakePacket | src/trx-reporting/src/pskreporter.rs:440-497 | step by step with the length patched in last: the packet, the first too long string, or too large |
| PskClient.Client.SendSpots | src/trx-reporting/src/pskreporter.rs:418-438 | state and packet after one attempt; failures change nothing |
| PskClient.SendsIff | src/trx-reporting/src/pskreporter.rs:418-438 | exactly when a call sends, and that otherwise it leaves the client as it was |
| PskClient.StateIs | src/trx-reporting/src/pskreporter.rs:431-436 | after any run: sequence is 1 plus all spots sent (mod 2^32), packet count, last template instant |
| PskClient.TemplatesOften | src/trx-reporting/src/pskreporter.rs:418-436 | templates are in a packet exactly if it is one of the first three or an hour has passed since the last ones |
| PskClient.RunHeard | src/trx-reporting/src/pskreporter.rs:418-498 | a collector starting with nothing reads every packet of every run, under the program's own sequence numbers: 1 and the spots sent before (mod 2^32) |
| PskClient.LossyRunHeard | src/trx-reporting/src/pskreporter.rs:418-498 | whichever packets are lost, a collector reads each one that it receives exactly from the first with templates on, and only headers before it |
| PskClient.RecordsCounted | src/trx-reporting/src/pskreporter.rs:431-436 | the data records in the packets of a run are its spots and the receiver records of every packet |
| PskClient.NeverFollows | src/trx-reporting/src/pskreporter.rs:431-436 | between consecutive packets the number advances by the receiver records less than RFC 7011, section 3.1, asks: it never follows |
| PskClient.SpotsArrive | src/trx-reporting/src/pskreporter.rs:418-498 | of every run the collector sees exactly the spots sent, in order, each as IsSeen says |
| PskClient.SpotSeen | src/trx-reporting/src/pskreporter.rs:473-480 | a spot is seen with its strings and time, the frequency as far as it fits, and the signal report as the nearest whole decibel within -128 to 127, halves away from zero, infinities at the ends, not-a-number as 0 |
| PskUplink.LatestIsLast | src/trx-reporting/src/pskreporter.rs:181-182 | a pending spot is the last one accepted for its callsign |
| PskUplink.Drain | src/trx-reporting/src/pskreporter.rs:139 | draining lists every pending spot once |
| PskUplink.Uplink.Decoded | src/trx-reporting/src/pskreporter.rs:155-183 | too old or unusable decodes are skipped, others logged; every decode stays accounted for |
| PskUplink.Uplink.Flush | src/trx-reporting/src/pskreporter.rs:137-148 | sends the latest spot of every callsign since the last flush, once; received = skipped + superseded + sent + lost + pending |
| BuildDate.DayNumberCounts | src/trx-server/build.rs:3-16 | the reference day number grows by one from each calendar date to the next |
| BuildDate.CivilIsTheDate | src/trx-server/build.rs:3-16 | for every day count, negative ones too, the result is a valid date whose day number is that count |
| BuildDate.DayNumberInjective | src/trx-server/build.rs:3-16 | different dates have different day numbers |
| BuildDate.EveryDateReached | src/trx-server/build.rs:3-16 | every calendar date is the result for its day number and no other: a bijection |
| BuildDate.NextDayNextDate | src/trx-server/build.rs:3-16 | consecutive days get consecutive dates |
| BuildDate.DateIsRight | src/trx-server/build.rs:3-16 | with the cast to 32 bits the result is right exactly between two given seconds |
| History.Prune | src/trx-server/src/audio.rs:302-311 | the loop drops the expired entries in front, of any queue |
| History.PruneIsComplete | src/trx-server/src/audio.rs:302-311 | pruning leaves no expired entry exactly when no fresh entry is in front of one |
| History.EnforceCapacity | src/trx-server/src/audio.rs:248-253 | the newest entries up to the maximum stay |
| History.HistoryQueue.Record | src/trx-server/src/audio.rs:313-323 | pushed, pruned and cut, whatever was in the queue; of a log in the order of time the queue is then what log and cutoff say, loaded entries or not |
| History.HistoryQueue.Load | src/trx-server/src/history_store.rs:103-141 | entries from disk are appended in any order, neither pruned nor cut |
| History.HistoryQueue.Snapshot | src/trx-server/src/audio.rs:325-331 | the messages of the pruned queue, in order |
| History.HistoryQueue.Clear | src/trx-server/src/audio.rs:404-409 | empty, and the log starts anew |
| History.RecordedQueue | src/trx-server/src/audio.rs:313-323 | one more record keeps: the queue is the end of the log, everything else has left by expiry or for 10,000 newer ones, and of a log in order it is the formula's queue |
| History.KeptMeans | src/trx-server/src/audio.rs:249-331 | that queue is a suffix of the log, at most 10,000 long, without expired entries; nothing else left but entries with 10,000 newer ones |
| HistoryCounter.StepKeepsInv | src/trx-server/src/audio.rs:278-298 | what every step of every task keeps |
| HistoryCounter.CountIsSum | src/trx-server/src/audio.rs:278-298 | in every interleaving, with failing and stale swaps: the count is the sum of the lengths at their last adjustment, never above it, below by at most what was loaded |
| HistoryCounter.NeverSaturates | src/trx-server/src/audio.rs:283-296 | from empty queues the saturating subtraction never saturates |
| HistoryCounter.QuietCountIsExact | src/trx-server/src/audio.rs:752-759 | with no task inside an operation the estimate is the number of entries |
| HistoryCounter.OperationCounts | src/trx-server/src/audio.rs:278-298 | an operation by itself, through a failing swap, changes the count by the difference of the lengths |
| HistoryCounter.Shortfall | src/trx-server/src/history_store.rs:103-141 | what each step does to the shortfall: a load adds its entries, a saturating subtraction makes up its excess, nothing else counts |
| HistoryCounter.ExactIffNothingLoaded | src/trx-server/src/history_store.rs:103-141 | over every run the count is the sum of the lengths throughout if and only if nothing has been loaded |
| HistoryCounter.LoadedEntriesAreNotCounted | src/trx-server/src/history_store.rs:103-141 | a run in which three entries are there and the count is zero |
| HistoryStore.LoadAfterSave | src/trx-server/src/history_store.rs:69-100 | a restart keeps exactly the entries at most a day old, in order, with their age, for any clock readings |
| HistoryStore.SurvivesMeans | src/trx-server/src/history_store.rs:69-100 | an entry survives if its age by the clocks is at most a day |
| HistoryStore.AgeKept | src/trx-server/src/history_store.rs:69-100 | a reloaded entry has its age, short of less than a millisecond, with the time in between; one the clock cannot represent is brand-new |
| HistoryStore.OrderAfterRestart | src/trx-server/src/history_store.rs:78-86 | with a clock that stands still during save and load: exactly when a reloaded queue is in the order of time |
| HistoryStore.DisorderIsSmall | src/trx-server/src/history_store.rs:78-97 | with a moving clock, entries it can represent are out of order by less than the time of the save and a millisecond |
| HistoryStore.MovingClockReorders | src/trx-server/src/history_store.rs:78-97 | two entries of one instant that a restart puts out of the order of time |
| HistoryStore.ReloadedIsPast | src/trx-server/src/history_store.rs:78-86 | nothing that was loaded is later than the clock |
| ResetProtocol.StepKeepsInv | src/trx-server/src/audio.rs:1973-2445 | what every step of both tasks keeps, for all four decoders |
| ResetProtocol.NoStaleMessage | src/trx-server/src/audio.rs:1973-2445 | in every interleaving a message comes only from samples such that the reset sequence stood still from each sample's check to the message's |
| ResetProtocol.ResetIsABarrier | src/trx-server/src/rig_task.rs:606-629 | once a new sequence is published, no message checked later contains an earlier sample |
| ResetProtocol.HistoryFreshIff | src/trx-server/src/rig_task.rs:606-629 | in every run, a message in the history has no sample from before a published reset if and only if its check came after the publication |
| ResetProtocol.DialFrequency | src/trx-server/src/rig_task.rs:1148-1175 | a message's base frequency is that of its samples when neither counter moved; for WSPR the reset sequence cannot have |
| ResetProtocol.WrongFrequency | src/trx-server/src/rig_task.rs:1148-1175 | in every run, samples and check differ in frequency only after a retune that invalidates nothing, samples and base frequency only after that or a reset behind the check, which WSPR rules out |
| ResetRuns.RetuneInvalidates | src/trx-server/src/rig_task.rs:1148-1175 | a retune in DIG or USB moves the sequence, one in another mode does not, one to the same frequency does nothing |
| ResetRuns.RigIs | src/trx-server/src/rig_task.rs:606-629 | in every run the rig, and every published look at it, is what the events up to the last publication say: its counters are the numbers of resets and of retunes by mode |
| ResetRuns.OtherFrequency | src/trx-server/src/rig_task.rs:1148-1175 | in every run a sample has another frequency than its check only if the rig was retuned in another mode, published between the two |
| ResetRuns.OneFrequency | src/trx-server/src/rig_task.rs:1148-1175 | while the rig never leaves DIG and USB, every sample of every message was taken at the frequency of its check |
| ResetRuns.HeldIs | src/trx-server/src/audio.rs:1973-2445 | what every step does to the samples held: a frame adds its own, exactly four occasions drop them all, nothing else changes them |
| ResetRuns.DropIsABarrier | src/trx-server/src/audio.rs:1973-2445 | once everything is dropped (a moved sequence, idleness, a new FT8 slot, the end of a WSPR decode) no message sent later has an earlier sample |
| ResetRuns.WakeIs | src/trx-server/src/audio.rs:2091-2117 | a task waits exactly while its decoder is enabled in DIG or USB |
| ResetRuns.FtxCycle | src/trx-server/src/audio.rs:1995-2090 | from any waiting state, a frame that completes a decode with a result sends the window and the block, in order |
| ResetRuns.Ft2Cycle | src/trx-server/src/audio.rs:2166-2250 | from any waiting state, a frame that triggers a decode with a result sends the end of the buffer |
| ResetRuns.WsprCycle | src/trx-server/src/audio.rs:2325-2420 | from any waiting state, the first frame of a new slot sends the whole buffer and is then all that is held |
| ResetRuns.WhereNext | src/trx-server/src/audio.rs:1973-2445 | where a task goes after a drop, a frame taken in, and a finished decode |
| ResetRuns.StoppedIsSilent | src/trx-server/src/audio.rs:1973-2445 | a stopped task sends nothing more |
| ResetProtocol.HistoryKeepsStaleMessage | src/trx-server/src/rig_task.rs:606-629 | from any state past a check: clearing the history, resetting and publishing, then recording leaves the earlier message alone in the history |
| ResetProtocol.StaleMessageInHistory | src/trx-server/src/rig_task.rs:606-629 | a run from the initial state in which the history keeps a message made from a sample of before the reset |
| ResetProtocol.BaseReadTooLate | src/trx-server/src/audio.rs:2058-2059 | from any state past a check, except of WSPR, a retune gives the message the new frequency |
| ResetProtocol.BaseFrequencyIsWrong | src/trx-server/src/audio.rs:2058-2059 | a run from the initial state whose message has a base frequency its sample was not taken at |
| ResetProtocol.SilentRetune | src/trx-server/src/rig_task.rs:1148-1175 | from any waiting state, a retune during another mode leaves the task and the sequences as they were |
| ResetProtocol.SilentRetuneMixesSamples | src/trx-server/src/rig_task.rs:1148-1175 | for every other frequency, a run from the initial state whose message has samples of both |
| Ft2.RetainWindow | src/trx-server/src/audio.rs:85-91 | the last 45,000 samples |
| Ft2.FeedWindow | src/trx-server/src/audio.rs:122-133 | what is fed is the window in blocks of the decoder's size, zeros filling the last one |
| Ft2.DecodeWindow | src/trx-server/src/audio.rs:111-135 | one decode of the last window of samples so fed; nothing when there are too few |
| Ft2.Window.Frame | src/trx-server/src/audio.rs:2191-2210 | for any split into frames: the last min(n, 45000) samples are held and floor(n / 9000) decodes ran once n reached 45000, each of the window held then; the first decode after which the sequence has moved is dropped and everything starts anew |
| Ft2.Window.Reset | src/trx-server/src/audio.rs:2204-2209 | a reset starts the count and the window anew |
| Ft2Dedupe.RecentDecodes.Prune | src/trx-server/src/audio.rs:93-96 | only entries of the last eight seconds stay |
| Ft2Dedupe.RecentDecodes.ShouldEmit | src/trx-server/src/audio.rs:98-108 | emits if and only if the whole log has no emission of the key in the last eight seconds |
| Ft2Dedupe.RoundIs | src/trx-server/src/audio.rs:101 | the number in a key is the nearest one, halves away from zero, or the end of 32 bits |
| Ft2Dedupe.TracksTells | src/trx-server/src/audio.rs:98-106 | the pruned map knows a key exactly when the log has a recent emission of it |
| Framing.Writer.WriteAudioMsg | src/trx-core/src/audio.rs:97-108 | type, length cut to 32 bits, payload; nothing refused |
| Framing.Writer.WriteVchanAudioFrame | src/trx-core/src/audio.rs:161-171 | identifier and audio as one message of the channel type |
| Framing.Reader.ReadAudioMsg | src/trx-core/src/audio.rs:121-144 | message, end of stream or too large, and what is left unread in each case |
| Framing.MessageReadBack | src/trx-core/src/audio.rs:97-144 | a written message reads back, the rest untouched, if and only if it is within the limit of its type |
| Framing.ReadIsWritten | src/trx-core/src/audio.rs:121-144 | whatever is read is within its limit and, written again, gives back the octets |
| Framing.TooLargeRefused | src/trx-core/src/audio.rs:126-139 | a message over its limit is refused by type and length behind its header |
| Framing.CutMessage | src/trx-core/src/audio.rs:121-144 | a stream that ends inside a message gives no part of it |
| Framing.StreamReadBack | src/trx-core/src/audio.rs:97-144 | a stream of messages within the limits gives back exactly these, then its end |
| Framing.VchanFrameReadBack | src/trx-core/src/audio.rs:161-184 | channel audio arrives under its identifier |
| HistoryReplay.PushHistory | src/trx-server/src/audio.rs:3405-3418 | the blob grows by the entries of all messages that can be serialised |
| HistoryReplay.BuildBlob | src/trx-server/src/audio.rs:3398-3479 | the blob of all histories is that of all their messages that can be serialised, one after the other |
| HistoryReplay.BlobAppend | src/trx-server/src/audio.rs:3398-3479 | joining blobs joins their entries |
| HistoryReplay.AllEntries | src/trx-server/src/audio.rs:3398-3479 | one entry for each message that can be serialised, in order, with its text and the type of its decoder |
| HistoryReplay.BlobIsStream | src/trx-server/src/audio.rs:3405-3418 | a blob is a stream of audio messages of these types and texts |
| HistoryReplay.ParseHistory | src/trx-client/src/audio_client.rs:538-559 | the loop yields the parsable ones of the entries that are there in full |
| HistoryReplay.CutOffBlob | src/trx-client/src/audio_client.rs:538-559 | of any truncation of a blob exactly the entries wholly contained are found |
| HistoryReplay.ReplayedMessages | src/trx-client/src/audio_client.rs:538-559 | end to end over all histories: of any truncated blob the client gets exactly the messages whose entries arrived in full, in order, those that cannot be serialised left out |
| LineReader.ReadLimitedLine | src/trx-server/src/listener.rs:185-235 | the answer depends only on the stream, not on the buffer fills; exactly the line is consumed, and of a line that is too long exactly the fills before the one that shows it |
| LineReader.LinesAreTheStream | src/trx-server/src/listener.rs:185-235 | the lines put together are the stream, each ending with its only newline |
| LineReader.ReadsAreLines | src/trx-client/src/remote_client.rs:1146-1196 | repeated reads return the lines in order up to the first too long (newline counted) or invalid one, and fail exactly there |
| RequestBatch.RigTask.Coalesce | src/trx-server/src/rig_task.rs:416-426 | the swap-remove loop takes out every spectrum request |
| RequestBatch.RigTask.ProcessBatch | src/trx-server/src/rig_task.rs:404-507 | the executions and answers of a batch |
| RequestBatch.KeptAndTaken | src/trx-server/src/rig_task.rs:416-426 | coalescing splits the requests into those for the spectrum and all others, losing none |
| RequestBatch.AnsweredOnce | src/trx-server/src/rig_task.rs:404-507 | every request is answered exactly once |
| RequestBatch.AnswersFit | src/trx-server/src/rig_task.rs:439-496 | every answer is the result of an execution of the request's own command |
| RequestBatch.SpectrumShared | src/trx-server/src/rig_task.rs:416-461 | all spectrum requesters get the same result |
| RequestBatch.ExecutedIsPermutation | src/trx-server/src/rig_task.rs:404-507 | the other commands run once each, the spectrum at most once |
| RequestBatch.InOrderIff | src/trx-server/src/rig_task.rs:413-426 | the other commands run in order of arrival if and only if at most one arrived behind the second spectrum request |
| RigMapping.DefaultIsGreatest | src/trx-client/src/remote_client.rs:1137-1144 | no rig ranks above the chosen one: transmitting, initialised, then by identifier |
| RigMapping.OutranksIs | src/trx-client/src/remote_client.rs:1137-1144 | the ranking spelled out: any transmitting rig above any other, then initialised, then the identifier at its first difference |
| RigMapping.DefaultIsLast | src/trx-client/src/remote_client.rs:1137-1144 | of equals the last one is chosen |
| RigMapping.Connection.MapRigs | src/trx-client/src/remote_client.rs:768-801 | the loop's pairs and the map back it fills; without short names every rig under its identifier |
| RigMapping.MappingIsInjective | src/trx-client/src/remote_client.rs:768-801 | names and rigs are paired one to one, the wildcard included |
| RigMapping.MappedNames | src/trx-client/src/remote_client.rs:768-801 | exactly which names are mapped |
| RigMapping.WildcardIs | src/trx-client/src/remote_client.rs:779-796 | a rig mapped without a name of its own is the candidate of the first rig without one |
| RigMapping.NamelessRig | src/trx-client/src/remote_client.rs:779-796 | a rig that ranks above all others gets the name without a rig if it has none of its own; if it has one, the first rig without one gets it |
| RigMapping.WayBack | src/trx-client/src/remote_client.rs:1013-1041 | every mapped name leads back to its rig, no two names to one rig, and always to a rig of that name, over all refreshes |
| RigMerge.MergeKnownRigs | src/trx-client/src/remote_client.rs:929-961 | the two loops build the merged list |
| RigMerge.KnownRigs.CacheRemoteRigs | src/trx-client/src/remote_client.rs:901-927 | the list after a refresh, merged or, without short names, replaced; kept when the comparison sees no difference |
| RigMerge.OthersUntouched | src/trx-client/src/remote_client.rs:901-961 | a refresh leaves other servers' entries and their order untouched |
| RigMerge.CachedNames | src/trx-client/src/remote_client.rs:901-961 | its own names become exactly those just mapped, and no duplicate arises |
| RigMerge.MergedData | src/trx-client/src/remote_client.rs:943-958 | every own entry of a merged or replaced list is the snapshot just received |
| RigMerge.FreshIff | src/trx-client/src/remote_client.rs:916-924 | exactly when the list is renewed, and when it stays stale |
| RigMerge.TransmittingGoesUnseen | src/trx-client/src/remote_client.rs:916-924 | a list that stays stale: the only rig starts transmitting |
| RigMerge.NeverDuplicates | src/trx-client/src/remote_client.rs:901-961 | over any interleaving of refreshes the list never holds a duplicate |
| RigMerge.NamesAreFromLastRefresh | src/trx-client/src/remote_client.rs:901-961 | a server's names in the list are those of its own last refresh, whatever others did since |
| PassScan.FindPasses | src/trx-core/src/geo.rs:489-556 | for any sky with gaps and any window, negative ones too: passes in order and apart, covering every visible instant, without a propagated one at or below the horizon, with true maximum, azimuths and times |
| PassScan.PassesReport | src/trx-core/src/geo.rs:489-556 | every returned pass is that of its span: times, duration, the tenth nearest to an elevation that is reached and nowhere exceeded, and those nearest to the first and the last propagated azimuth |
| PassScan.PassesCover | src/trx-core/src/geo.rs:489-556 | in the returned list: the passes follow one another, and a propagated instant is in one exactly if the satellite is above the horizon |
| PassScan.TenthsIs | src/trx-core/src/geo.rs:520-524 | a tenth is within 0.05, halves away from zero |
| PassScan.MaxElevationIs | src/trx-core/src/geo.rs:513-521 | the elevation of a pass is reached and nowhere exceeded |
| PassScan.SpansAreUnique | src/trx-core/src/geo.rs:500-556 | there is only one way to divide a sky into such passes |
| PassScan.PassesAreUnique | src/trx-core/src/geo.rs:489-556 | so there is only one list of passes of a window, the returned one |

## Left out

- Sockets, tasks, timeouts and channel capacities: their outcomes are parameters or events. Gzip
  and JSON are identity or abstract encodings.
- The floating-point signal chain before the AIS slicer, and SNR and frequency as 32-bit floats:
  numbers are exact; not-a-number and infinity are told apart where the code casts them.
- AisDecoder.Decoder.ProcessSample: the phase, a 32-bit float in the program, is an integer; they
  agree while sums stay below 2^24.
- AIS sample rates above 2^24, and arithmetic overflow that only a debug build would report.
- AisDamage.DamagedReportsDropped: damage changes the bits of a frame between its flags; errors that
  make or destroy stuffing, flags or aborts are not followed further than AisLink.AnyStateDecodes.
- The `rig_id` and `ts_ms` of a parsed AIS message, which the parser always leaves empty.
- Turning decoded text into spots (callsign and locator recognition): a spot is given, or none.
- HistoryStore.OrderAfterRestart: for a clock that stands still during the save and the load;
  for one that moves HistoryStore.DisorderIsSmall bounds the disorder.
- History.HistoryQueue.Record: of a queue loaded out of order only what left, and why, is stated,
  and each step; History.PruneIsComplete says when a prune leaves nothing expired.
- The decoders' inner work: a message may depend on everything fed since the last reset.
- ResetProtocol.NoStaleMessage: slot boundaries, block sizes and results are arbitrary events, a
  superset of what the clocks allow.
- Ft2Dedupe.RecentDecodes.ShouldEmit: the key is the pair of text and rounded frequency instead of
  their joined string, from which both can be told.
- LineReader.ReadLimitedLine: UTF-8 validity is a parameter.
- PassScan.FindPasses: sums of instants do not overflow 64 bits; SGP4, sidereal time and the observer's
  geometry are an arbitrary function of the scan instant. Sorting the passes of all satellites by
  time is a library call.
- The selected rig and the watch channels of the client.
- VDES, APRS, CW, WEFAX and LRPT tasks; virtual-channel teardown; configuration, logging and command
  tables: case lists with little to prove.
