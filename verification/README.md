# Protocols, parsers and tables of a device tree, in Dafny

The repository is an Android device tree. This project models the parts of it that carry their own
logic and proves what they promise:

* the FM configuration store: the string hash, the two-level chained hash table, the block reader and
  line parser that fill it, the text it reads, and the controls that a loaded file sends
  (`ConfHash`, `ChainedHash`, `KeyTable`, `ConfText`, `ConfLayout`, `ConfLoader`, `PerformanceConfig`,
  `ConfOrder`, `ConfVerdict`);
* the hybrid search list, from comma-separated text to the packed driver message (`HybridSearch`);
* the FM controller: the event listener and the power-up hand-off (`FmEvents`, `PowerUp`);
* the camera HAL hand-offs: deferred work, API results and auto focus (`DeferredWork`,
  `DeferredProtocol`, `ApiResults`, `ApiProtocol`, `AutoFocus`);
* camera channels: buffer return, stopping, reprocess streams, offline buffers (`Channel`,
  `ReprocessChannel`);
* the comparator that orders the blob lists (`BlobOrder`).

`SortBy`, `Filters`, `Folds` and `Wrappers` hold the theory these share.

## How it is organised

Code that updates objects is a class with the source's fields; its methods are proved against
functions on values (`DeferredWork.Queued`, `ApiResults.FirstFor`, `Filters.Filter`,
`FmEvents.Handle`, ...), and the theorems are lemmas about those functions, over all inputs or all
runs. The two concurrent protocols use the same functions as their steps: `DeferredProtocol` and
`ApiProtocol` are state machines over every interleaving of the threads' lock-protected steps, and
`PowerUp` is one for both orders of locking and commanding.

Calls into the driver, the camera interface and the notifier are either logged (what is called) or
parameters (what is answered).

Four places where the code does less than one might expect are stated exactly:

* The blob comparator is not an order on all lines. It orders a section if and only if no line
  without a directory has both a line in a proper subdirectory of the directory it names and a line
  that continues it with a character below `/` (`BlobOrder.TransitiveIffNoClash`, with the smallest
  cycle in `BlobOrder.CycleExample`).
* The hybrid search message can be decoded if and only if there are at most 84 entries and every
  frequency is on the 50 kHz grid from 76 MHz with a 16-bit channel number
  (`HybridSearch.MessageRoundTrip`).
* `TuneChannel`, `Seek` and `ScanList` give their command before they take the mutex.  A run of theirs
  loses its wake-up if and only if the handler gets the mutex in between
  (`PowerUp.SleepsInVainIffOvertaken`); `Pwr_Up` locks first and no run of it does.  READY_EVENT is the
  one event that ends a waiting operation without waking its thread
  (`FmEvents.OnlyReadyForgetsTheWaiter`, over whole streams `FmEvents.EndsSilentlyIff`).
* A failed deferred job keeps its slot for good.  A job is accepted if and only if fewer than 25 are
  queued, running or failed (`DeferredProtocol.AcceptsIffRoom`), so after 25 failures none is accepted
  any more (`DeferredProtocol.FailuresExhaustTheTable`), and there is a run with 25 failures
  (`DeferredProtocol.TableCanBeExhausted`).

## Model

| member | source | states |
|---|---|---|
| ConfHash.GetHashCode | RevampedFMRadio/jni/ConfFileParser.cpp:132-147 | for every name whose terms fit in `int`, the hash is twice the base-two Horner value of the name modulo 2^31-1; in every case it is below 2^31-1 |
| ConfHash.AccumulateFits | RevampedFMRadio/jni/ConfFileParser.cpp:132-147 | the unsigned accumulator never wraps while terms fit |
| ConfHash.SumIsHorner | RevampedFMRadio/jni/ConfFileParser.cpp:132-147 | the terms added so far are the Horner value of the part read, scaled by what is left to read |
| ConfHash.ShortNamesFit | RevampedFMRadio/jni/ConfFileParser.cpp:132-147 | names of up to 24 seven-bit characters always fit |
| ConfHash.HornerAppend | RevampedFMRadio/jni/ConfFileParser.cpp:132-147 | the value of a name put together is that of its front, doubled once for each character behind it, plus that of its rest |
| ChainedHash.LookupIsMap | RevampedFMRadio/jni/ConfFileParser.cpp:578-604 | scanning the bucket of a key finds exactly what the abstract map holds for it, on every key |
| ChainedHash.InsertRepresents | RevampedFMRadio/jni/ConfFileParser.cpp:606-648 | pushing an absent key to the head of its chain keeps every entry in its bucket, names unique, and adds exactly that key to the map |
| ChainedHash.ListingIsKeys | RevampedFMRadio/jni/ConfFileParser.cpp:275-380 | walking all buckets meets every stored name exactly once, and their number is the size of the map |
| ChainedHash.ListingSlice | RevampedFMRadio/jni/ConfFileParser.cpp:296-317 | each bucket fills the next stretch of the listing, inside the allocated length |
| KeyTable.Group.FindPair | RevampedFMRadio/jni/ConfFileParser.cpp:382-428 | the chain scan returns a node exactly for stored keys, with the stored value |
| KeyTable.Group.PushPair | RevampedFMRadio/jni/ConfFileParser.cpp:818-872 | linking a new pair keeps chains, counter and uniqueness, and adds exactly that pair |
| KeyTable.CopyAllKeys | RevampedFMRadio/jni/ConfFileParser.cpp:357-376 | the key array is filled in listing order without a write beyond the counter plus one, and ends in NULL |
| KeyTable.CopyAllGroups | RevampedFMRadio/jni/ConfFileParser.cpp:296-317 | the same for group names |
| KeyTable.GroupTable.constructor | RevampedFMRadio/jni/ConfFileParser.cpp:195-217 | a new table stands for the empty map |
| KeyTable.GroupTable.FindGroup | RevampedFMRadio/jni/ConfFileParser.cpp:578-604 | a group is found exactly when the map of maps has its name |
| KeyTable.GroupTable.LinkGroup | RevampedFMRadio/jni/ConfFileParser.cpp:606-648 | the pointer updates keep buckets, uniqueness and group counter |
| KeyTable.GroupTable.AddGrp | RevampedFMRadio/jni/ConfFileParser.cpp:606-648 | succeeds exactly for a new name and then adds an empty group; a rejected add changes no object of the table |
| KeyTable.GroupTable.AddKeyValuePair | RevampedFMRadio/jni/ConfFileParser.cpp:794-878 | succeeds exactly for a non-empty new key of an existing group and then adds that pair to that group only; a rejected add changes no object |
| KeyTable.GroupTable.GetValue | RevampedFMRadio/jni/ConfFileParser.cpp:382-428 | is lookup in the map of maps |
| KeyTable.GroupTable.GetKeys | RevampedFMRadio/jni/ConfFileParser.cpp:320-380 | NULL exactly for unknown or empty groups, otherwise a NULL-terminated array with every key once |
| KeyTable.GroupTable.GetGrps | RevampedFMRadio/jni/ConfFileParser.cpp:275-318 | NULL exactly for the empty table, otherwise a NULL-terminated array with every group name once |
| ConfText.GroupOfIsGroupLine | RevampedFMRadio/jni/ConfFileParser.cpp:655-730 | a line is taken as a group exactly if it is an alphanumeric name in brackets followed by blanks only |
| ConfText.PairOfIsPairLine | RevampedFMRadio/jni/ConfFileParser.cpp:738-792 | a line is taken as a pair exactly if it is an alphanumeric key, `=` and any value |
| ConfText.FeedAppend | RevampedFMRadio/jni/ConfFileParser.cpp:463-522 | reading a stream in two parts is reading it in one |
| ConfText.ReaderIsStream | RevampedFMRadio/jni/ConfFileParser.cpp:463-522 | wherever in a line the reader is resumed, its outcome is that of loading the lines |
| ConfText.ReadIsLineByLine | RevampedFMRadio/jni/ConfFileParser.cpp:463-557 | the byte-wise reader with its carriage-return flag equals loading the newline-terminated lines one by one |
| ConfText.FailureKeepsPrefix | RevampedFMRadio/jni/ConfFileParser.cpp:463-557 | when loading fails, the stream is complete good lines followed by a bad one, and the table holds exactly what the good lines define |
| ConfText.JoinedLinesLoad | RevampedFMRadio/jni/ConfFileParser.cpp:463-557 | complete lines that all load have the effect of one after the other |
| ConfText.RoundTrip | RevampedFMRadio/jni/ConfFileParser.cpp:463-557 | any set of distinct alphanumeric groups with distinct alphanumeric keys and values free of newline, carriage return and NUL, rendered as text and read back, loads and yields exactly those groups and pairs and no others |
| ConfLayout.CharacterClasses | RevampedFMRadio/jni/ConfFileParser.cpp:541-792 | the space, blank and alphanumeric characters are the six, two and 62 of the "C" locale, each written out |
| ConfLayout.SkipsIndent | RevampedFMRadio/jni/ConfFileParser.cpp:541-542 | any run of leading white space is skipped, and nothing else |
| ConfLayout.LineMeaning | RevampedFMRadio/jni/ConfFileParser.cpp:527-582 | whatever white space is in front of its text and whatever follows a NUL, a line is a comment, a group or a pair exactly if its text is, and otherwise malformed |
| ConfLayout.LayoutRoundTrip | RevampedFMRadio/jni/ConfFileParser.cpp:463-557 | however the lines of a configuration are indented, ended with carriage returns, followed by blanks and interspersed with blank lines and `#` lines, the file loads and yields exactly that configuration |
| ConfLoader.ScanGroup | RevampedFMRadio/jni/ConfFileParser.cpp:655-730 | the pointer walk finds the name of every group line and rejects every other line, including `[]` |
| ConfLoader.ScanPair | RevampedFMRadio/jni/ConfFileParser.cpp:738-792 | the pointer walk finds key and value of every pair line and rejects every other line |
| ConfLoader.LineIsGrp | RevampedFMRadio/jni/ConfFileParser.cpp:655-730 | a group line with a new name adds the group and makes it current; a repeated one is refused and changes nothing |
| ConfLoader.LineIsKeyValuePair | RevampedFMRadio/jni/ConfFileParser.cpp:738-792 | a pair line adds to the current group exactly if there is one and the key is new |
| ConfLoader.ParseLine | RevampedFMRadio/jni/ConfFileParser.cpp:527-557 | acts on the heap table as the line's meaning says, including that a repeated group cannot pass as a pair |
| ConfLoader.PutChar | RevampedFMRadio/jni/ConfFileParser.cpp:499-512 | buffers a character below the allocated length unless a carriage return came before |
| ConfLoader.ReadByte | RevampedFMRadio/jni/ConfFileParser.cpp:480-513 | one turn of the inner loop, with growth of the buffer, is one step of the byte-wise reader |
| ConfLoader.ReadBlock | RevampedFMRadio/jni/ConfFileParser.cpp:480-513 | a block has the effect of its bytes, up to the first failure |
| ConfLoader.ParseLoad | RevampedFMRadio/jni/ConfFileParser.cpp:463-522 | for every way the stream is split into blocks, verdict and table are those of the whole byte stream |
| ConfLoader.BlocksAreOneStream | RevampedFMRadio/jni/ConfFileParser.cpp:479-517 | the nested loops over blocks and bytes, which stop at the first failure, read the concatenated stream |
| ConfLoader.BlocksDoNotMatter | RevampedFMRadio/jni/ConfFileParser.cpp:463-522 | the nested loops end in the same table, verdict, unfinished line and flag for any two splittings of one stream, and that outcome is the line-by-line one |
| PerformanceConfig.SameAsked | RevampedFMRadio/jni/ConfigFmThs.cpp:78-128 | walking the keys in any listing order sends the same controls as walking the name table |
| PerformanceConfig.Driver.SetBand | RevampedFMRadio/jni/FmPerformanceParams.cpp:38-63 | sends 87500 to 108000, 76000 to 108000 and 76000 to 90000 for the band numbers 1, 2 and 3, and nothing for other numbers |
| PerformanceConfig.ApplyBand | RevampedFMRadio/jni/ConfigFmThs.cpp:88-118 | sends the control of an in-range value, unchanged by the narrowing to the setter's type, and nothing otherwise |
| PerformanceConfig.ApplyAf | RevampedFMRadio/jni/ConfigFmThs.cpp:160-216 | the same for the AF thresholds with their 16-bit, 8-bit and signed 8-bit types |
| PerformanceConfig.SetBandCfgs | RevampedFMRadio/jni/ConfigFmThs.cpp:64-136 | sends exactly what the BANDCONFIG group asks for, whatever the listing order |
| PerformanceConfig.SetAfThs | RevampedFMRadio/jni/ConfigFmThs.cpp:138-236 | sends exactly what the AFTHRESHOLDS group asks for, whatever the listing order |
| PerformanceConfig.SetRxSearchAfThs | RevampedFMRadio/jni/ConfigFmThs.cpp:559-606 | of the band and AF controls, sends exactly those the file's content asks for, and none if the file cannot be opened or has a bad line; what a SEARCHTHRESHOLDS or HYBRIDSEARCHLIST group makes the code send (lines 236-481) is outside the statement |
| PerformanceConfig.SentOnceIffAskedFor | RevampedFMRadio/jni/ConfigFmThs.cpp:64-234 | each control, with the limits of bands and the names of groups and keys written out, is sent once if its key is present with its non-empty in-range value, and not at all otherwise |
| PerformanceConfig.BandsSent | RevampedFMRadio/jni/FmPerformanceParams.cpp:38-63 | the three pairs of limits are sent, once each, exactly for the numbers 1, 2 and 3 under RadioBand, and no other limits ever |
| ConfOrder.LineTracked | RevampedFMRadio/jni/ConfFileParser.cpp:527-557 | a line that loads defines in the table exactly what it adds to the list of definitions, and the current group is the last one defined |
| ConfOrder.StreamIsLines | RevampedFMRadio/jni/ConfFileParser.cpp:463-557 | any byte stream that loads has the effect of its newline-terminated lines, one after the other |
| ConfOrder.LoadedIsDefined | RevampedFMRadio/jni/ConfFileParser.cpp:463-557 | the table of any file that loads, with comments, blank or indented lines, blanks behind `]` and trailing carriage returns, has exactly the groups and pairs its lines define |
| ConfOrder.SameModelIff | RevampedFMRadio/jni/ConfFileParser.cpp:463-557 | two tables are equal if and only if their definitions are the same up to order |
| ConfOrder.OrderDoesNotMatter | RevampedFMRadio/jni/ConfigFmThs.cpp:559-606 | for all files that load, however they are written: they give the same table if and only if they define the same groups and pairs in whatever order, and then the same band and AF controls are sent |
| ConfOrder.RenderedDefinitions | RevampedFMRadio/jni/ConfFileParser.cpp:463-557 | a rendered configuration defines exactly what it renders |
| ConfVerdict.LoadsIff | RevampedFMRadio/jni/ConfFileParser.cpp:463-557 | a file loads if and only if every line is well-formed, no group is opened twice, every pair stands in a group that has not had its key, and no carriage return stands inside a line |
| ConfVerdict.UnfitFileSendsNothing | RevampedFMRadio/jni/ConfigFmThs.cpp:559-606 | a file with one line that is not fit for its place sends nothing |
| ConfVerdict.LayoutControls | RevampedFMRadio/jni/ConfigFmThs.cpp:559-606 | a file that lays out a configuration in any way sends each control that the configuration asks for once, and no other |
| HybridSearch.AtoiOfDecimal | RevampedFMRadio/jni/ConfigFmThs.cpp:500 | a printed number is read back |
| HybridSearch.AtoiOfText | RevampedFMRadio/jni/ConfigFmThs.cpp:499 | the number of a text is that of its digits behind white space and an optional sign, leading zeros and whatever follows aside |
| HybridSearch.AtoiOfNothing | RevampedFMRadio/jni/ConfigFmThs.cpp:499 | a text without digits in that place counts as 0 |
| HybridSearch.TokensOfJoin | RevampedFMRadio/jni/ConfigFmThs.cpp:497-520 | comma-joined non-empty tokens are extracted in order |
| HybridSearch.TokensOfPieces | RevampedFMRadio/jni/ConfigFmThs.cpp:497-520 | in any text, with doubled, leading and trailing commas, the tokens are the non-empty pieces between commas, in order |
| HybridSearch.Append | RevampedFMRadio/jni/ConfigFmThs.cpp:502-518 | growing by doubling keeps the contents and the capacity the least power of two that holds the length |
| HybridSearch.ExtractList | RevampedFMRadio/jni/ConfigFmThs.cpp:483-557 | extracts every token's value, converted to the element type, in order, with capacity a power of two, at least the length and below twice the length |
| HybridSearch.ValuesOfText | RevampedFMRadio/jni/ConfigFmThs.cpp:483-557 | a printed list of values that the element type can hold is extracted unchanged |
| HybridSearch.Conversions | RevampedFMRadio/jni/ConfigFmThs.cpp:499-537 | conversion to the element type keeps what fits and is blind to multiples of the range |
| HybridSearch.WriteEntry | RevampedFMRadio/jni/FmPerformanceParams.cpp:459-463 | the three stores of an entry append its low channel byte, high channel byte and SINR byte |
| HybridSearch.SetHybridSrchList | RevampedFMRadio/jni/FmPerformanceParams.cpp:432-484 | hands the driver exactly 3n+3 bytes, all written in bounds: mode, payload length, count and, for each pair, channel number low byte first and SINR; returns its answer; for n = 0 or a missing array sends nothing and fails |
| HybridSearch.EncodePacks | RevampedFMRadio/jni/FmPerformanceParams.cpp:432-484 | the encoding byte by byte, at every position |
| HybridSearch.EntryRoundTrip | RevampedFMRadio/jni/FmPerformanceParams.cpp:459-463 | an entry is read back exactly when its frequency is on the 50 kHz grid from 76000 with a 16-bit channel |
| HybridSearch.MessageRoundTrip | RevampedFMRadio/jni/FmPerformanceParams.cpp:432-484 | a receiver that checks mode, length and count reads the sender's pairs if and only if there are at most 84 and every frequency is on the grid |
| HybridSearch.TextToMessage | RevampedFMRadio/jni/ConfigFmThs.cpp:483-557 | from printed lists through extraction and packing to decoding, the pairs arrive as written |
| FmEvents.Controller.ProcessRadioEvent | RevampedFMRadio/jni/FmRadioController.cpp:1405-1481 | dispatches every event code to its effect and reports false on DISABLED_EVENT only |
| FmEvents.Controller.HandleEvents | RevampedFMRadio/jni/FmRadioController.cpp:1094-1115 | for every batching and every moment of cancellation, the effect is the fold of the events of the stream read until then, up to and including the first DISABLED_EVENT |
| FmEvents.UpToAppend | RevampedFMRadio/jni/FmRadioController.cpp:1094-1115 | nothing behind the first DISABLED_EVENT counts |
| FmEvents.BatchesAreOneStream | RevampedFMRadio/jni/FmRadioController.cpp:1094-1115 | the nested loops over batches and events, which stop at DISABLED_EVENT, handle the concatenated stream up to its first DISABLED_EVENT and report whether there was one |
| FmEvents.BatchingDoesNotMatter | RevampedFMRadio/jni/FmRadioController.cpp:1094-1115 | the nested loops end in the same state for any two batchings of one stream, and batches behind a DISABLED_EVENT have no effect |
| FmEvents.EndsOff | RevampedFMRadio/jni/FmRadioController.cpp:1336-1364 | a stream with a DISABLED_EVENT leaves the controller off and closed, having woken all waiters last |
| FmEvents.FoldCalls | RevampedFMRadio/jni/FmRadioController.cpp:1405-1481 | the driver calls and broadcasts of a stream are those of its events, one after the other |
| FmEvents.OnlyReadyForgetsTheWaiter | RevampedFMRadio/jni/FmRadioController.cpp:1135-1188 | an event ends a tune, seek or scan without waking its thread if and only if it is READY_EVENT |
| FmEvents.EndsSilentlyIff | RevampedFMRadio/jni/FmRadioController.cpp:1135-1188 | over any stream, a tune, seek or scan has ended with its thread never woken if and only if READY_EVENT came before every event that ends that operation with a wake-up, and no DISABLED_EVENT came |
| FmEvents.JumpFlagIsExact | RevampedFMRadio/jni/FmRadioController.cpp:1155-1188 | from every state and over any stream, the known frequency is what the last tune or AF-jump event brought, and the flag rises exactly if AF is enabled and some tune event that ends no operation brings another frequency than the positive one known before it |
| FmEvents.FlagsFollowEvents | RevampedFMRadio/jni/FmRadioController.cpp:1405-1481 | over any stream the radio-text, station-name and RDS flags rise exactly with their events, and the driver is given up exactly on DISABLED_EVENT |
| FmEvents.BeforeCancelIs | RevampedFMRadio/jni/FmRadioController.cpp:1094-1115 | the batches read are those before the first one before which the listener finds itself cancelled |
| PowerUp.BroadcastFindsTheWaiter | RevampedFMRadio/jni/FmRadioController.cpp:188-203 | in every interleaving the power-up broadcast finds `Pwr_Up` waiting or past its wait, and afterwards `Pwr_Up` does not sleep |
| PowerUp.WokenReadsOn | RevampedFMRadio/jni/FmRadioController.cpp:197-204 | if the broadcast ended the wait, the state read after it is on |
| PowerUp.ReadingOffMeansNotWoken | RevampedFMRadio/jni/FmRadioController.cpp:197-204 | if the state read after the wait is not on, the wait ended without the broadcast, before the handler set the state |
| PowerUp.BroadcastMissesIffOvertaken | RevampedFMRadio/jni/FmRadioController.cpp:325-331 | commanding before locking: in every run, the broadcast is about to find nobody waiting if and only if the handler got the mutex between the command and the lock |
| PowerUp.SleepsInVainIffOvertaken | RevampedFMRadio/jni/FmRadioController.cpp:325-331 | commanding before locking: in every run, a sleeping thread has lost its wake-up if and only if the handler got the mutex between the command and the lock |
| PowerUp.LostExactlyWhenCommandComesFirst | RevampedFMRadio/jni/FmRadioController.cpp:325-331 | hence a state asleep after its broadcast is reachable if and only if the command is given before the mutex is taken |
| DeferredWork.Scheduler.QueueDeferredWork | camera/QCamera2/HAL/QCamera2HWI.cpp:10050-10079 | takes the first free slot, the next id and the end of the queue and returns the id; refuses with 0 and no change when all 25 slots are taken or the queue refuses |
| DeferredWork.Scheduler.DequeueDeferredWork | camera/QCamera2/HAL/QCamera2HWI.cpp:10233-10253 | frees the job's slot on success, marks it on failure, and broadcasts exactly when some slot has the id |
| DeferredWork.Scheduler.CheckDeferredWork | camera/QCamera2/HAL/QCamera2HWI.cpp:10295-10303 | true exactly when a slot has the id with no failure recorded |
| DeferredWork.Scheduler.GetDefJobStatus | camera/QCamera2/HAL/QCamera2HWI.cpp:10267-10279 | the failure recorded for the id, NO_ERROR without a slot |
| DeferredProtocol.StepInv | camera/QCamera2/HAL/QCamera2HWI.cpp:9721-10025 | every step of callers, worker and waiters keeps slots, queue order, commands and sleepers consistent |
| DeferredProtocol.SlotsAreJobs | camera/QCamera2/HAL/QCamera2HWI.cpp:10050-10079 | in every run the occupied slots hold, each once, exactly the queued, running and failed jobs, which are disjoint and at most 25; no queued job is repeated |
| DeferredProtocol.EveryJobOnce | camera/QCamera2/HAL/QCamera2HWI.cpp:9704-10027 | in every run every issued job is in exactly one of the queue, the worker and the reported jobs, and there once; nothing else is, except a job whose id is about to be issued |
| DeferredProtocol.ReturnedIdIsEnqueued | camera/QCamera2/HAL/QCamera2HWI.cpp:10061-10070 | the id read back after sending the command is that of the job just enqueued, whatever the worker did meanwhile |
| DeferredProtocol.WorkerFindsAJob | camera/QCamera2/HAL/QCamera2HWI.cpp:9721-9730 | a command received always finds a job in the queue, and never one whose command is still to be sent |
| DeferredProtocol.WaitReturnsTheReport | camera/QCamera2/HAL/QCamera2HWI.cpp:10317-10330 | in every run a wait on an issued id returns only after the worker reported on that very job, and returns the reported status, despite slot reuse |
| DeferredProtocol.OtherIdsDoNotWait | camera/QCamera2/HAL/QCamera2HWI.cpp:10317-10330 | id 0 and ids never issued return NO_ERROR without sleeping |
| DeferredProtocol.SleepersWaitForWork | camera/QCamera2/HAL/QCamera2HWI.cpp:10317-10330 | whoever sleeps, sleeps on a job still queued or running, and then the worker or the lock holder has a step to take |
| DeferredProtocol.StepsAddUp | camera/QCamera2/HAL/QCamera2HWI.cpp:9704-10027 | the worker steps still needed for a job drop by exactly one with every worker step, and no other thread's step sets the job back |
| DeferredProtocol.ReportedWithin75WorkerSteps | camera/QCamera2/HAL/QCamera2HWI.cpp:9704-10027 | however callers, waiters and worker interleave, a job is reported by the time the worker has taken 75 steps after its id was issued |
| DeferredProtocol.AcceptsIffRoom | camera/QCamera2/HAL/QCamera2HWI.cpp:10050-10079 | in every run, with the lock free and below the id limit, a job is accepted if and only if fewer than 25 jobs are queued, running or failed |
| DeferredProtocol.FailuresExhaustTheTable | camera/QCamera2/HAL/QCamera2HWI.cpp:10233-10253 | failed jobs keep their slots for good; once 25 have failed no job is accepted in the rest of the run |
| DeferredProtocol.TableCanBeExhausted | camera/QCamera2/HAL/QCamera2HWI.cpp:10050-10079 | there is a run after which 25 jobs have failed and no further one is accepted |
| ApiResults.ResultList.Signal | camera/QCamera2/HAL/QCamera2HWI.cpp:6764-6784 | the result becomes the last of the linked list, all others keep their places |
| ApiResults.ResultList.Unlink | camera/QCamera2/HAL/QCamera2HWI.cpp:6718-6726 | the pointer updates remove exactly one node, also when it is the head |
| ApiResults.ResultList.Take | camera/QCamera2/HAL/QCamera2HWI.cpp:6713-6735 | removes and returns exactly the first result for the event, or changes nothing if there is none |
| ApiProtocol.TakeOldest | camera/QCamera2/HAL/QCamera2HWI.cpp:6713-6735 | removing the first listed result of an event is consuming the oldest posted one not yet consumed |
| ApiProtocol.StepInv | camera/QCamera2/HAL/QCamera2HWI.cpp:6691-6784 | every step keeps one lock holder, and for every event as many waiting clients as open requests and unread results |
| ApiProtocol.ListIsPostedMinusTaken | camera/QCamera2/HAL/QCamera2HWI.cpp:6705-6743 | in every run the list is the posted results minus the consumed ones in posting order, and a wait takes the oldest result of its own event |
| ApiProtocol.SleepersAreAnswered | camera/QCamera2/HAL/QCamera2HWI.cpp:6705-6743 | clients asleep for an event never outnumber the open requests for it, and every unread result has a client already woken for it, so no wake-up is lost |
| ApiProtocol.NothingLeftBehind | camera/QCamera2/HAL/QCamera2HWI.cpp:131-155 | when no client is inside a call, no request is open and no result is left in the list |
| ApiProtocol.NothingPostedBeforeWait | camera/QCamera2/HAL/QCamera2HWI.cpp:131-155 | in every run, at every moment from a client's request to its falling asleep in the wait, the posted results, the consumed ones and the list are those at the request |
| AutoFocus.Hal.RequestFocus | camera/QCamera2/HAL/QCamera2HWI.cpp:3849-3879 | activates in the four scanning modes unless the camera refuses, answers at once and with success in the others |
| AutoFocus.Hal.ProcessEvent | camera/QCamera2/HAL/QCamera2HWI.cpp:6268-6404 | state by state of the lens, in terms of mode, event and active flag: which notification with which success, whether the request stays active, which focus distance is handed on; flushes old snapshot frames exactly for a reported focus, and returns the last answer |
| AutoFocus.EveryEntryTells | camera/QCamera2/HAL/QCamera2HWI.cpp:6268-6404 | in every run, a focus notification made by an event reports success exactly for FOCUSED_LOCKED, PASSIVE_FOCUSED or a lens gone to infinity in auto or macro mode, answers a request exactly if one was active, and a movement is reported as going on exactly for a scan |
| AutoFocus.ActiveIff | camera/QCamera2/HAL/QCamera2HWI.cpp:3849-3913 | in every run a request is active exactly if the camera took one up and no refusal, cancellation, stop, locked state or lens gone to infinity has come since |
| AutoFocus.AnswersNeverExceedRequests | camera/QCamera2/HAL/QCamera2HWI.cpp:6268-6404 | in every run, with modes changing at will, FOCUS notifications plus one if active never exceed requests plus notifications sent unasked by continuous modes |
| AutoFocus.OneAnswerPerRequest | camera/QCamera2/HAL/QCamera2HWI.cpp:3849-3913 | outside the continuous modes, FOCUS notifications plus one if active never exceed the requests |
| AutoFocus.SilenceAfterCancel | camera/QCamera2/HAL/QCamera2HWI.cpp:3892-3913 | after a cancel in auto or macro mode nothing is notified until the next request or a continuous mode |
| Filters.CompactingTurn | camera/QCamera2/HAL/QCameraChannel.cpp:388-400 | removing or passing the element at the index keeps the loop on its way to the filtered sequence |
| Channel.SuperBuf.RemoveAt | camera/QCamera2/HAL/QCameraChannel.cpp:467-472 | shifting the rest down removes exactly one buffer and keeps the order |
| Channel.Channel.AddStream | camera/QCamera2/HAL/QCameraChannel.cpp:209-247 | appends a fresh stream of this channel exactly if fewer than 8 are there and it initialises |
| Channel.Channel.LinkStream | camera/QCamera2/HAL/QCameraChannel.cpp:263-284 | appends the foreign stream exactly if the channel has a handle and the link succeeds |
| Channel.Channel.Stop | camera/QCamera2/HAL/QCameraChannel.cpp:378-406 | terminates, keeps exactly the channel's own streams in order and stops each of them once, in order, and no linked one; does nothing when inactive |
| Channel.Channel.BufDoneAll | camera/QCamera2/HAL/QCameraChannel.cpp:420-437 | gives every buffer whose stream is in the channel back by its own index to the first stream with its handle, once, in order; the return code is the last stream's answer |
| Channel.Channel.BufDone | camera/QCamera2/HAL/QCameraChannel.cpp:451-478 | gives exactly the buffers of the stream back, by index and in order, and leaves exactly the others in order; leaves the frame alone if the stream is not in the channel; the return code is the stream's last answer |
| Channel.ReturnsGoBack | camera/QCamera2/HAL/QCameraChannel.cpp:420-478 | for every frame the calls carry, in order, exactly the stream handles and buffer indices of the buffers whose stream is in the channel |
| Channel.ReleaseIsOfTheStream | camera/QCamera2/HAL/QCameraChannel.cpp:451-478 | a release gives back buffers of the released stream only, and leaves one of them in the frame only if that stream is not in the channel |
| Channel.NoBufferLostOrReturnedTwice | camera/QCamera2/HAL/QCameraChannel.cpp:420-478 | releasing one stream first and the rest later returns every buffer exactly as often as releasing the whole frame |
| Channel.ReleasedStreamIsGone | camera/QCamera2/HAL/QCameraChannel.cpp:451-478 | after a release no buffer of the stream is left, and a second release does nothing |
| Channel.StopDropsLinked | camera/QCamera2/HAL/QCameraChannel.cpp:378-406 | however additions and links are interleaved, stopping leaves exactly the added streams in their order |
| ReprocessChannel.ReprocessChannel.AddReprocStreamsFromSource | camera/QCamera2/HAL/QCameraChannel.cpp:966-1245 | on a channel with any streams that leave room for the writes, as an empty one always does, every write stays inside the array; position by position, each new stream is recorded with the source it was made from, earlier streams with 0; for distinct source handles each then finds the stream made from its source and no other handle finds one (on a channel that had streams, handle 0 aside); the return code is that of the first failure |
| ReprocessChannel.FirstFailureDecides | camera/QCamera2/HAL/QCameraChannel.cpp:993-1239 | the return code is that of the first source whose stream cannot be made, and the array is written once for each stream made and once for a failed initialisation |
| ReprocessChannel.ProductsDistinct | camera/QCamera2/HAL/QCameraChannel.cpp:993-1239 | distinct source handles stay distinct among the streams made |
| ReprocessChannel.SourceHasPosition | camera/QCamera2/HAL/QCameraChannel.cpp:993-1239 | every source from which the scan makes a stream has a position, recorded with its handle and holding the stream made from it |
| ReprocessChannel.PositionHasSource | camera/QCamera2/HAL/QCameraChannel.cpp:993-1239 | every position comes from a source that the scan reached and made a stream from |
| ReprocessChannel.SourceFindsItsStream | camera/QCamera2/HAL/QCameraChannel.cpp:1257-1269 | for distinct source handles, each source finds exactly the stream made from it |
| ReprocessChannel.OtherHandlesFindNothing | camera/QCamera2/HAL/QCameraChannel.cpp:1257-1269 | the handle of no source with a stream finds none |
| ReprocessChannel.ZeroFindsAnEarlierStream | camera/QCamera2/HAL/QCameraChannel.cpp:1257-1269 | on a channel that had streams before, handle 0 finds the first of those, whatever the sources |
| ReprocessChannel.ReprocessChannel.GetStreamBySourceHandle | camera/QCamera2/HAL/QCameraChannel.cpp:1257-1269 | the stream at the first position recorded with the handle, NULL if there is none |
| ReprocessChannel.ReprocessChannel.FindNextIndex | camera/QCamera2/HAL/QCameraChannel.cpp:1344-1350 | one above the largest index in use, 0 for none, in 32-bit arithmetic |
| ReprocessChannel.NextIsLength | camera/QCamera2/HAL/QCameraChannel.cpp:1344-1350 | as long as the counter has not wrapped, the next index is the number of buffers |
| ReprocessChannel.RequestMaps | camera/QCamera2/HAL/QCameraChannel.cpp:1321-1419 | before the counter wraps, a request maps the metadata as the next buffer and the frame as the one after it |
| ReprocessChannel.ReprocessChannel.DoReprocessOffline | camera/QCamera2/HAL/QCameraChannel.cpp:1321-1419 | maps and remembers metadata then frame as far as the mappings succeed, on the given stream or the one made from the frame's source; otherwise changes nothing |
| ReprocessChannel.ReprocessChannel.Stop | camera/QCamera2/HAL/QCameraChannel.cpp:1282-1305 | unmaps every buffer of the list once, leaves nothing mapped, empties the list and keeps the channel's streams, all its own |
| ReprocessChannel.OfflineRun | camera/QCamera2/HAL/QCameraChannel.cpp:1321-1419 | over any run of requests and mapping failures the list equals the mapped buffers and indices count up |
| ReprocessChannel.StopUnmapsEachOnce | camera/QCamera2/HAL/QCameraChannel.cpp:1282-1305 | at the end of any run the indices are strictly increasing, every unmap is of a mapped buffer, and nothing stays mapped |
| BlobOrder.CompareAntisymmetric | reorder-libs.py:20-51 | swapping the lines negates the answer, on all lines |
| BlobOrder.EmbedSlashed | reorder-libs.py:20-51 | on lines with a directory the comparator is the lexicographic order of directory, a top symbol, file name |
| BlobOrder.Embedding | reorder-libs.py:20-51 | on every clash-free section, lines without a directory included, it is the lexicographic order of sort keys |
| BlobOrder.ClashIsCycle | reorder-libs.py:20-51 | a clash is a cycle of three lines |
| BlobOrder.TransitiveIffNoClash | reorder-libs.py:20-51 | the comparator is a strict total order on a section if and only if the section has no clash |
| BlobOrder.DirectoryLinesOrdered | reorder-libs.py:20-51 | it orders every section whose lines all have a directory |
| BlobOrder.CycleExample | reorder-libs.py:30-51 | `a`, `a-`, `a/b/c` form a cycle |
| BlobOrder.SortedSectionUnique | reorder-libs.py:61-65 | a clash-free section has at most one sorted arrangement |
| BlobOrder.SortedSectionExists | reorder-libs.py:61-65 | and it has one |
| BlobOrder.ResortIsIdentity | reorder-libs.py:61-65 | sorting a sorted section changes nothing |
| BlobOrder.ReorderSections | reorder-libs.py:61-65 | every section comes out in its place, and every clash-free one as a sorted arrangement of itself |
| BlobOrder.ReorderingIsCanonical | reorder-libs.py:61-65 | on a file without clashes the result does not depend on the sorting algorithm, and reordering it again changes nothing |
| BlobOrder.SubtreeContiguous | reorder-libs.py:40-48 | in a sorted section of directory lines each directory subtree is contiguous |
| BlobOrder.FilesFollowSubdirectories | reorder-libs.py:40-48 | files directly in a directory follow all files of its subdirectories |

## Left out

* Allocation failures, logging, JNI, binder, ioctl implementations, `mParameters`, JPEG and EXIF handling.
* NULL arguments (strings, tables, channels, streams, frames of `bufDone`), `free_key_file`, and leaks of rejected names.
* The search thresholds (`set_srch_ths`) and the assembly of the hybrid list (`set_hybrd_list`), which
  read their values from a group other than the one they list, and the controls they send.
* The read-back of the AF thresholds after a successful set, which is only logged.
- HybridSearch.Atoi: numbers outside `int`, undefined in C, have their mathematical value before conversion.
- ConfHash.GetHashCode: says only the range for names whose terms do not fit in `int`, where the C conversion is undefined.
- HybridSearch.SetHybridSrchList: lists so long that 3n+3 would wrap 32 bits are outside the contract.
- DeferredProtocol.Enqueue: stops before the 32-bit id counter wraps; `DeferredWork.NextId` has the wrap. One HAL instance is modelled, although the counter is shared by all.
- DeferredProtocol.WorkerReports: the status is whatever the worker reports; that it is not reset between jobs is not modelled. What the jobs do is not part of the model.
- DeferredProtocol.WaitReturnsTheReport: the id is fixed for the whole wait, although the source takes it by reference (camera/QCamera2/HAL/QCamera2HWI.cpp:10317) and callers pass members that other code assigns (camera/QCamera2/HAL/QCamera2HWI.cpp:4575).
- ApiProtocol.Request: clients follow lock, any number of request and wait pairs, unlock; requests posted without a wait are not modelled.
- ApiProtocol.Signal: the state machine posts one result for each accepted request, in any order.
- Channel.Channel.Stop: `start`, which makes a channel active, and the camera interface's `stop_channel` are not modelled beyond the flag and the return code.
- ReprocessChannel.ReprocessChannel.AddReprocStreamsFromSource: the type and feature tests that skip a source stream, and the configuration of the new stream, are one oracle for each source; calls that would write outside the handle array are outside the contract.
- FmEvents.Controller.HandleEvents: the listener acts between two actions of the API thread. Of the AF list event only the two driver reads are modelled, not the logged list.
- PowerUp.Step: what `Pwr_Up` does before locking and after reading the state is not modelled; the reading is, for `TuneChannel` it has no counterpart.
- BlobOrder.ReorderSections: splitting a file into stripped lines and sections, and writing it back, are not modelled; `strcoll` is that of the "C" locale.
* `Get_ps`, the return code of `Pwr_Up` and the RDS calls of the FM controller.
* `QCamera2Factory`, fingerprint, lights, sensors, init and shims: thin or finite code without further properties.
