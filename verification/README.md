# Verified core of the flova firmware

A Dafny model of the parts of the flova device firmware that must not go wrong, and
proofs of what they are for: a configuration is replaced as a whole or not at all,
offline actions are taken once, records survive power loss, the wire formats mean one
thing only, and the tasks that share a buffer do not disturb each other. Each module
follows one component of the sources. Components that update fields or buffers are
classes with loops and invariants; what they compute is compared with functions on
whole messages, lists or runs.

`dafny verify dfyconfig.toml` checks everything.

## How it is laid out

- **Configuration transaction** (`DurableStorage`, `ConfigurationTypes`, `ConfigurationBanks`,
  `LinkConfigurationStorage`, `ConfigurationDigest`, `ConfigurationInstaller`,
  `ConfigurationRuns`, `ConfigurationRestore`, `Fnv`). Storage is a map of keys with atomic writes and removes that
  may fail with or without effect; the power can be cut at any of them, after which nothing
  changes, so the state a method leaves behind covers every crash point. An image is safe when
  the newest pointer names a bank whose records are readable and hash to its manifest; it is acceptable to
  the next start when that manifest is finalized, too.
- **Configuration verifier** (`ConfigurationUnits`, `ConfigurationVerifier`). `ValidList` is one
  declarative predicate of the whole ordered unit list; the cooperative step machine decides it.
- **Offline schedules** (`ScheduleManifests`, `ScheduleRuntime`, `ScheduleCompiler`, `OfflineSchedules`).
- **Hashes** (`Sha256`, `Sha1`): the functions of FIPS 180-4 and the streaming forms, with their constants
  derived (`Sha256Constants`) and the published answers computed (`Sha256Example`, `Sha1Example`).
- **Wire formats** (`Utf8`, `Utf8Validators`, `Cbor`, `CborWalker`, `CborOrder`, `WebSocketFrames`,
  `WebSocketReceiver`, `LinkCodec`, `DeviceLinkSend`, `SecretText`), against RFC 3629, section 4.2.1
  of RFC 8949, sections 5.2 to 5.5 of RFC 6455 and section 5 of RFC 4648.
- **Device runtime** (`Resources`, `DeviceHistory`, `DeviceDelivery`).
- **Board protocols** (`FileTransactions` for the ESP8266 record files, `LinkTask` for the two tasks
  of the ESP32 link as an interleaving of their atomic steps with `LinkTaskProgress` for what its calls
  achieve, `FactoryResetGesture` and `GestureMachine`).

`Bytes` and `Options` are shared.

## Where the code differs from what is said of it

The model follows the code. In these places the code does less than its comments or its evident
purpose say. For each the project proves exactly when the code does what it should; the members
named a witness are inputs for which it does not.

- A new generation of the same parity as the active one erases the active bank manifest, although
  the interface promises that the active generation survives until promotion
  (`ConfigurationBanks.BeginSafeIff`, `BeginUnsafeWitness`).
- If removals fail during a discard and the finalized transfer is then promoted without its bank
  manifest, the next start does not accept the active generation (`ConfigurationBanks.PromoteSafeIff`,
  `PromoteUnsafeWitness`).
- A power cut between the two saves of a finalization leaves the pending manifest finalized and the bank
  manifest not. Offered again the transfer is a duplicate, its end is accepted, the client finds the bank
  manifest without looking at the flag, and activates a generation that the next start discards
  (`ConfigurationRuns.Resume`, `ConfigurationBanks.PromoteUnfinalizedWitness`).
- Discarding a generation of the parity of the active one removes the active bank manifest, even if
  the generation was never stored (`ConfigurationBanks.DiscardAcceptableIff`, `DiscardUnsafeWitness`).
- Restored progress of an unfinished schedule may stand one past its last action, because
  `restoreProgress` compares with `>` where `restoreCheckpoint` uses `>=`
  (`ScheduleRuntime.Runtime.RestoredFitsIff`, `RestoredUnfitWitness`).
- An installed schedule manifest is reported as installed even if its fresh progress could not be written.
  The next start then goes on with the progress of the manifest before, and may pass over actions of the
  new one, though it takes none twice (`ScheduleRuntime.Runtime.StartsOverIff`, `StaleProgressWitness`).
- The time an action is due is added up in 64 bits without a check, so near the end of that range it wraps and
  the action is due at once (`ScheduleRuntime.DueAtIff`, `DueAtWitness`).
- The chunk compiler is said to reject duplicates; a repeated schedule id is accepted and starts its
  slot over (`ScheduleCompiler.Compiler.AddSchedule`). The verifier rejects it beforehand.
- The protocol asks for the deterministic encoding of section 4.2.1 of RFC 8949, whose map keys ascend
  bytewise; the script that writes the test vectors sorts shorter keys first, as section 4.2.3 describes
  (`CborOrder.OrdersDiffer`). The walker accepts map entries in any order, so a map has several accepted
  encodings; for either order, which payloads are deterministic is `CborOrder.AcceptedReferenceIff`, with
  `OrderWitness`.
- Control frames without payload are passed over unanswered, a close included
  (`WebSocketFrames.CloseEndsIff`, `AnsweredIff`).
- After a successful ESP8266 write a stale backup may remain if its removal fails. A read whose open of
  the primary file fails, or a removal cut short, then shows the older value
  (`FileTransactions.ReadsRightIff`, `RemovedPrimaryGoneIff`, `StaleWitness`).
- A power cut between the removal of the oldest history record and the write of the index makes the
  next start find no history at all (`DeviceHistory.DropCutShortIff`, `DropCutShortWitness`).
- The second history restore after a late binding reserves the bytes of the queue again; what the queue
  held before stays reserved for good (`DeviceHistory.HistoryRing.Restore`).
- A reservation whose demand passes 2^32 is accepted and breaks the others
  (`Resources.AdmittedHonouredIff`, `WrappedWitness`).
- A stream updated a multiple of 2^32 times while a delivery is outstanding is settled by the answer
  to the old value (`DeviceDelivery.Window.FinishDelivery`).
- A tap count of zero asks for 256 taps, since the counter has eight bits
  (`FactoryResetGesture.Gesture.CountTap`).
- A first update of the gesture while the clock reads zero closes its window at once, because the start of
  the window is then noted as one (`GestureMachine.FirstUpdateClosesIff`).

## Model

| member | source | states |
|---|---|---|
| ConfigurationRuns.Run | packages/flova-embedded-sdk/include/FlovaConfigurationInstaller.h:295-435 | In every durable state of every run of offers, records, ends, activations, refused ones included, drops, resets, power cuts and restarts, up to the first event that is not lawful, the newest pointer names a bank whose records are all readable and hash to its manifest; the active generation never decreases and its bank never changes in place; the next start accepts each state if and only if the active manifest is finalized |
| ConfigurationRuns.AcceptableFollows | packages/flova-embedded-sdk/include/FlovaConfigurationInstaller.h:418-426 | From one state of a run to the next, an accepted active generation stays accepted, and a new one is accepted if and only if its manifest was finalized before the switch |
| ConfigurationRuns.Transfer | packages/flova-embedded-sdk/include/FlovaConfigurationInstaller.h:295-426 | Over working storage a well-formed transfer, a re-offer of one cut off before it was finalized included, becomes the active generation if and only if its records hash to the announced checksum; the active bank then holds exactly those records in order and the next start accepts it; otherwise the old generation is kept |
| ConfigurationRuns.Resume | packages/flova-embedded-sdk/include/FlovaConfigurationInstaller.h:329-426 | A transfer cut off after its pending manifest was finalized and offered again is a duplicate, its end is accepted without a record sent, and activation makes it active, safely if and only if its bank manifest was stored; the next start accepts it if and only if that one was finalized too |
| ConfigurationRuns.Perform | packages/flova-embedded-sdk/include/FlovaConfigurationInstaller.h:295-435 | One event, a power cut at any write or a refusal included, leads from a safe durable state to a safe one in which the old generation is intact or superseded; and exactly what becomes of the active generation when the environment offers, activates or drops what it may not |
| ConfigurationRuns.CompleteIffHash | packages/flova-embedded-sdk/include/FlovaConfigurationInstaller.h:405-409 | With all records durable the bank is complete exactly when the hash of the record stream is the announced checksum |
| ConfigurationRestore.Restore | packages/flova-arduino/include/FlovaArduino.h:1017-1061 | A start restores the newest generation if and only if it has a finalized manifest, a matching hash and valid units, and touches nothing then; over working storage the outcome for every image is exact: otherwise the previous one follows if and only if it is as good and in the other bank, and is then the active one |
| ConfigurationRestore.RunAndRestart | packages/flova-arduino/include/FlovaArduino.h:1017-1061 | Power lost within any run: the next start restores the generation active then, and finds it as it was, if and only if its manifest is finalized and its units are valid; over working storage the outcome is exact in every other case too |
| ConfigurationRestore.Consider | packages/flova-arduino/include/FlovaArduino.h:1017-1038 | One candidate is accepted exactly when good; over working storage it is otherwise dropped for good, or ends the attempt when it is the last one and fails verification |
| ConfigurationRestore.Examine | packages/flova-arduino/include/FlovaArduino.h:1043-1061 | Reading and hashing the announced records accepts exactly a generation that can be restored and whose units are valid |
| ConfigurationRestore.DiscardKeepsGood | packages/flova-arduino/include/FlovaLinkConfigurationStorage.h:49-64 | A complete discard leaves a generation of the other bank as good as it was and none of its own bank |
| ConfigurationRestore.DiscardMakesNothingGood | packages/flova-arduino/include/FlovaLinkConfigurationStorage.h:49-64 | A generation that is good after a discard, whatever of it failed, was good before |
| ConfigurationInstaller.Installer.constructor | packages/flova-embedded-sdk/include/FlovaConfigurationInstaller.h:291-293 | A restart forgets everything volatile and needs nothing but a consistent image |
| ConfigurationInstaller.Installer.Start | packages/flova-embedded-sdk/include/FlovaConfigurationInstaller.h:295-346 | Which acknowledgement every offer gets, exactly: invalid offers by their fields, older and equal generations, a transfer under way, a newer one pending, a finalized one offered again; an accepted one starts from record zero, and leaves nothing to restore from exactly when it shares the bank of the active one |
| ConfigurationInstaller.Installer.AddRecord | packages/flova-embedded-sdk/include/FlovaConfigurationInstaller.h:348-385 | Every refusal has its status and changes nothing; an accepted record is the next one and extends the durable bank by exactly itself; a repeated one is a duplicate if and only if it equals the stored one |
| ConfigurationInstaller.Installer.Append | packages/flova-embedded-sdk/include/FlovaConfigurationInstaller.h:372-384 | Write, read back, compare and hash: success means the bank grew by this record, failure leaves the count, and working storage never fails |
| ConfigurationInstaller.Installer.Finish | packages/flova-embedded-sdk/include/FlovaConfigurationInstaller.h:387-416 | Every refusal has its status, an end after a restart is already committed exactly when the active manifest is finalized and named; acceptance means all records are durable and hash to the checksum; a mismatch is reported exactly when they do not |
| ConfigurationInstaller.Installer.Seal | packages/flova-embedded-sdk/include/FlovaConfigurationInstaller.h:404-410 | The checksum decides: finalized means restorable, a mismatch changes nothing |
| ConfigurationInstaller.Installer.Promote | packages/flova-embedded-sdk/include/FlovaConfigurationInstaller.h:418-426 | Promotion activates the finalized generation and nothing else; the result is safe exactly when its bank manifest is stored, and the next start accepts it exactly when that one is finalized |
| ConfigurationInstaller.Installer.Discard | packages/flova-arduino/include/FlovaLinkConfigurationStorage.h:49-64 | Dropping a generation outside the active bank keeps the active generation and the transfer under way consistent, whichever of the four removals fail; after a successful drop of any generation the next start accepts what is active if and only if that lies in the other bank and can be restored |
| ConfigurationInstaller.Installer.Reset | packages/flova-embedded-sdk/include/FlovaConfigurationInstaller.h:428-435 | Reset keeps the durable state and returns to idle |
| ConfigurationInstaller.FieldsCompared | packages/flova-embedded-sdk/include/FlovaConfigurationInstaller.h:295-346 | Which fields an offer and an end must agree in, what a record may hold, and when two records are the same |
| ConfigurationBanks.BeginKeepsConsistent | packages/flova-arduino/include/FlovaLinkConfigurationStorage.h:78-86 | Beginning in the inactive bank is safe after either of its two saves |
| ConfigurationBanks.BeginSafeIff | packages/flova-arduino/include/FlovaLinkConfigurationStorage.h:78-86 | Beginning over an active generation is safe if and only if the two generations differ in parity, and then the next start accepts the active one as before; otherwise never |
| ConfigurationBanks.BeginUnsafeWitness | packages/flova-arduino/include/FlovaLinkConfigurationStorage.h:78-86 | Generation 3 begun over an active generation 1 leaves nothing to restore from |
| ConfigurationBanks.RecordKeepsConsistent | packages/flova-arduino/include/FlovaLinkConfigurationStorage.h:88-104 | A record written into the inactive bank leaves the active bank alone |
| ConfigurationBanks.FinalizeKeepsConsistent | packages/flova-arduino/include/FlovaLinkConfigurationStorage.h:125-132 | Finalizing a complete bank is safe after either of its two saves |
| ConfigurationBanks.PromoteActivates | packages/flova-arduino/include/FlovaLinkConfigurationStorage.h:134-144 | The pointer written next to the old one makes the new generation the active one |
| ConfigurationBanks.PromoteSafeIff | packages/flova-arduino/include/FlovaLinkConfigurationStorage.h:134-144 | The pointer switched to a complete transfer is safe if and only if the bank manifest is present, and the next start accepts it if and only if that one is finalized |
| ConfigurationBanks.PromoteUnsafeWitness | packages/flova-arduino/include/FlovaLinkConfigurationStorage.h:134-144 | A complete transfer without bank manifest, promoted, cannot be restored from |
| ConfigurationBanks.PromoteUnfinalizedWitness | packages/flova-arduino/include/FlovaLinkConfigurationStorage.h:125-144 | A transfer cut off between the two saves of the finalization and promoted on a second offer is whole and still not accepted by the next start |
| ConfigurationBanks.PromoteKeepsPreviousIff | packages/flova-arduino/include/FlovaLinkConfigurationStorage.h:26-40 | The generation switched away from stays on record if and only if its pointer is not the one overwritten |
| ConfigurationBanks.AlternationKeepsPrevious | packages/flova-arduino/include/FlovaLinkConfigurationStorage.h:134-144 | Alternating parities keep the active pointer out of the next slot for good |
| ConfigurationBanks.DiscardKeepsConsistent | packages/flova-arduino/include/FlovaLinkConfigurationStorage.h:49-64 | Discarding a generation that is not active is safe with any subset of its removals done |
| ConfigurationBanks.DiscardAcceptableIff | packages/flova-arduino/include/FlovaLinkConfigurationStorage.h:49-64 | After a complete discard the next start accepts what is active if and only if that generation is in the other bank and can be restored from |
| ConfigurationBanks.DiscardUnsafeWitness | packages/flova-arduino/include/FlovaLinkConfigurationStorage.h:49-64 | Discarding generation 3, of which nothing is stored, destroys the active generation 1 |
| ConfigurationBanks.BankFrame | packages/flova-arduino/include/FlovaLinkConfigurationStorage.h:106-123 | Only the record keys of a bank decide what is read from it |
| ConfigurationBanks.PackedRecordLoads | packages/flova-arduino/include/FlovaLinkConfigurationStorage.h:88-123 | A record written is the record read, message id aside |
| ConfigurationBanks.ImageDetermines | packages/flova-arduino/include/FlovaLinkConfigurationStorage.h:152-188 | The checksum covers every field: stored structures of one kind with the same octets are the same |
| ConfigurationBanks.PointerExample | packages/flova-arduino/include/FlovaLinkConfigurationStorage.h:175-179 | A pointer octet by octet |
| ConfigurationBanks.ManifestExample | packages/flova-arduino/include/FlovaLinkConfigurationStorage.h:152-162 | A manifest octet by octet |
| ConfigurationBanks.RecordExample | packages/flova-arduino/include/FlovaLinkConfigurationStorage.h:164-173 | A record octet by octet, its body padded to 448 |
| ConfigurationBanks.KeyExamples | packages/flova-arduino/include/FlovaLinkConfigurationStorage.h:219-242 | The text keys of odd and even generations |
| LinkConfigurationStorage.LinkStorage.ReadGenerations | packages/flova-arduino/include/FlovaLinkConfigurationStorage.h:26-40 | The two checksummed pointers in descending order |
| LinkConfigurationStorage.LinkStorage.BeginInactive | packages/flova-arduino/include/FlovaLinkConfigurationStorage.h:78-86 | Refuses what does not fit, else saves the manifest twice in order; a cut leaves none, the first or both |
| LinkConfigurationStorage.LinkStorage.WriteRecord | packages/flova-arduino/include/FlovaLinkConfigurationStorage.h:88-104 | Replaces exactly one record key or nothing |
| LinkConfigurationStorage.LinkStorage.ReadRecord | packages/flova-arduino/include/FlovaLinkConfigurationStorage.h:106-123 | Delivers a record if and only if the stored one is intact, of this generation and sequence, and within bounds |
| LinkConfigurationStorage.LinkStorage.FinalizeInactive | packages/flova-arduino/include/FlovaLinkConfigurationStorage.h:125-132 | Saves the finalized manifest twice in order |
| LinkConfigurationStorage.LinkStorage.PromoteGeneration | packages/flova-arduino/include/FlovaLinkConfigurationStorage.h:134-144 | Replaces the pointer the active generation does not use, never going back |
| LinkConfigurationStorage.LinkStorage.DiscardGeneration | packages/flova-arduino/include/FlovaLinkConfigurationStorage.h:49-64 | Removes only pointers, pending and bank manifest of the generation; success means all of them are gone |
| DurableStorage.RenderInjective | packages/flova-arduino/include/FlovaLinkConfigurationStorage.h:219-242 | The composed text keys of distinct structures are distinct |
| Fnv.Checksum | packages/flova-arduino/include/FlovaLinkConfigurationStorage.h:181-188 | The loop computes 32-bit FNV-1a with wrap-around |
| Fnv.DetectsOneOctet | packages/flova-arduino/include/FlovaLinkConfigurationStorage.h:181-188 | Changing any one octet of a structure changes its checksum |
| Fnv.KnownAnswers | packages/flova-arduino/include/FlovaLinkConfigurationStorage.h:181-188 | The published checksums of the empty message and of one letter |
| ConfigurationDigest.Digest.Update | packages/flova-embedded-sdk/include/FlovaConfigurationInstaller.h:213-228 | Absorbing appends to the message whatever the split, across block boundaries and the 64-bit length wrap |
| ConfigurationDigest.Digest.AddRecord | packages/flova-embedded-sdk/include/FlovaConfigurationInstaller.h:170-181 | A record contributes its sequence, kind, length and body in that order |
| ConfigurationDigest.Digest.PadInPlace | packages/flova-embedded-sdk/include/FlovaConfigurationInstaller.h:230-243 | In-place padding yields exactly the padded message of section 5.1.1 of FIPS 180-4 and its last chaining value |
| ConfigurationDigest.Digest.Transform | packages/flova-embedded-sdk/include/FlovaConfigurationInstaller.h:245-281 | One block is compressed as section 6.2.2 of FIPS 180-4 prescribes |
| ConfigurationDigest.Digest.Finish | packages/flova-embedded-sdk/include/FlovaConfigurationInstaller.h:183-192 | The result is the one-shot SHA-256 of everything added, and the digest can go on |
| Sha256.HashBlocksPrefix | packages/flova-embedded-sdk/include/FlovaConfigurationInstaller.h:213-228 | The chaining value after some blocks does not depend on what follows |
| Sha256Example.AbcHash | packages/flova-embedded-sdk/include/FlovaConfigurationInstaller.h:170-281 | The hash of abc is the published one, schedule and rounds step by step |
| Sha256Constants.SquareRoots | packages/flova-embedded-sdk/include/FlovaConfigurationInstaller.h:157-166 | The initial value is the fraction of the square roots of the first eight primes |
| Sha256Constants.CubeRoots0 | packages/flova-embedded-sdk/include/FlovaConfigurationInstaller.h:246-259 | The first eight round constants are the fractions of the cube roots of the first primes; seven more lemmas do the rest |
| Sha256.ChooseTakes | packages/flova-embedded-sdk/include/FlovaConfigurationInstaller.h:199-201 | Choice takes the bits of one word where another is set and those of the third elsewhere |
| Sha256.MajorityOfTwo | packages/flova-embedded-sdk/include/FlovaConfigurationInstaller.h:203-205 | Two equal words are the majority |
| Sha1.Digest.NextWord | packages/flova-arduino/include/FlovaWs.h:357-369 | The 16-word ring always holds the last sixteen words of the 80-word schedule |
| Sha1.Digest.NextRegisters | packages/flova-arduino/include/FlovaWs.h:370-391 | A round in the disjunctive forms of the source is the round of section 6.1.2 |
| Sha1.Digest.Process | packages/flova-arduino/include/FlovaWs.h:351-394 | Compression over the ring equals compression over the 80-word schedule |
| Sha1.Digest.Update | packages/flova-arduino/include/FlovaWs.h:396-402 | Absorbing appends to the message whatever the split |
| Sha1.Digest.Finish | packages/flova-arduino/include/FlovaWs.h:404-420 | The result is the one-shot SHA-1 of everything added |
| Sha1.HashPieces | packages/flova-arduino/include/FlovaWs.h:396-420 | Any division of a message into pieces hashes to the hash of the whole |
| Sha1Example.AbcHash | packages/flova-arduino/include/FlovaWs.h:343-420 | The hash of abc is the published one, schedule and rounds step by step |
| Sha1Example.Constants | packages/flova-arduino/include/FlovaWs.h:367-378 | The four round constants are the scaled square roots of 2, 3, 5 and 10 |
| Sha1.ChooseForms | packages/flova-arduino/include/FlovaWs.h:371-372 | The disjunctive choice is the exclusive-or choice of the standard |
| Sha1.MajorityForms | packages/flova-arduino/include/FlovaWs.h:377-378 | The disjunctive majority is the exclusive-or majority of the standard |
| ConfigurationVerifier.Work.Verify | packages/flova-arduino/include/FlovaArduino.h:1043-1267 | The stepwise verifier terminates and accepts if and only if the hash matches and the whole ordered unit list is valid |
| ConfigurationVerifier.Work.Step | packages/flova-arduino/include/FlovaArduino.h:980-1014 | Every step keeps the workspace a summary of the units seen and lowers a lexicographic measure of phase, record and scan |
| ConfigurationVerifier.Work.StepDigest | packages/flova-arduino/include/FlovaArduino.h:1043-1072 | One record is hashed a step, then the checksum decides |
| ConfigurationVerifier.Work.StepSemantic | packages/flova-arduino/include/FlovaArduino.h:1185-1211 | Admits the next unit or rejects a list that no valid list begins with |
| ConfigurationVerifier.Work.StepKeyScan | packages/flova-arduino/include/FlovaArduino.h:1213-1231 | Compares one earlier key a step; rejection means a repeated key |
| ConfigurationVerifier.Work.StepReferences | packages/flova-arduino/include/FlovaArduino.h:1233-1267 | One unit's references are resolved a step |
| ConfigurationVerifier.Work.ValidateUnit | packages/flova-arduino/include/FlovaArduino.h:1074-1183 | Admits a unit exactly when the list with it is still admissible |
| ConfigurationVerifier.Work.ValidateDatastream | packages/flova-arduino/include/FlovaArduino.h:1078-1116 | Admits a datastream exactly when its id is new, there is room and its pin claim fits |
| ConfigurationVerifier.Work.ClaimPin | packages/flova-arduino/include/FlovaArduino.h:1086-1113 | A pin claim is taken exactly when slots remain, the pin is free and no system record came before |
| ConfigurationVerifier.Work.ValidateSystem | packages/flova-arduino/include/FlovaArduino.h:1117-1140 | Admits the one system record exactly when its pins go with the mappings made |
| ConfigurationVerifier.Work.ValidateSchedule | packages/flova-arduino/include/FlovaArduino.h:1141-1154 | Admits a schedule exactly when it is usable, new and within capacity |
| ConfigurationVerifier.Work.ValidateOccurrences | packages/flova-arduino/include/FlovaArduino.h:1155-1182 | Admits a chunk exactly when it is the next one of a declared schedule and fits |
| ConfigurationVerifier.Work.CheckComplete | packages/flova-arduino/include/FlovaArduino.h:1186-1193 | Counting chunks tells exactly whether every schedule's last chunk is there |
| ConfigurationVerifier.Work.CheckReferences | packages/flova-arduino/include/FlovaArduino.h:1253-1265 | A unit passes exactly when every datastream it names is declared somewhere in the list |
| ConfigurationUnits.AdmissibleExtend | packages/flova-arduino/include/FlovaArduino.h:1074-1183 | A list stays admissible if and only if the next unit is usable and fits the ones before |
| ConfigurationUnits.AdmissiblePrefix | packages/flova-arduino/include/FlovaArduino.h:1074-1183 | Every prefix of an admissible list is admissible, so a rejected prefix condemns the list |
| ConfigurationUnits.CompleteIff | packages/flova-arduino/include/FlovaArduino.h:1186-1193 | Having as many chunks as announced and having the last one are the same |
| ConfigurationUnits.SameAnnouncement | packages/flova-arduino/include/FlovaArduino.h:1168-1173 | All chunks of a schedule announce one count |
| ConfigurationUnits.UndeclaredHasNoChunks | packages/flova-arduino/include/FlovaArduino.h:1157-1167 | Chunks come only after their schedule |
| ConfigurationUnits.ClaimedPinsDistinct | packages/flova-arduino/include/FlovaArduino.h:1106-1107 | No pin is claimed twice |
| ConfigurationUnits.SlotsRespected | packages/flova-arduino/include/FlovaArduino.h:1084-1107 | In a valid list for a board that maps automatically no more datastreams are digital or analog inputs than there are input slots, no more digital or PWM outputs than output slots, and no pin is mapped twice |
| ConfigurationUnits.KindsCounted | packages/flova-arduino/include/FlovaArduino.h:1084-1097 | The slots in use are counted by the mapping kinds |
| ConfigurationUnits.ResetPinReadable | packages/flova-arduino/include/FlovaArduino.h:1125-1138 | A datastream on the reset pin is a digital input whose pull the board can read there, and the status pin is no other's |
| ConfigurationUnits.ResetPinPulled | packages/flova-arduino/include/FlovaArduino.h:1129-1138 | A reset pin of its own must be readable with a pull-up, or with none if it is said to be active high |
| ConfigurationUnits.UnitsWithin | packages/flova-arduino/include/FlovaArduino.h:1074-1183 | The bounds on each unit of a valid list, in numbers |
| ConfigurationUnits.OneDatastreamIff | packages/flova-arduino/include/FlovaArduino.h:1074-1116 | A list of one datastream is valid if and only if its id is usable, its key has 1 to 48 octets, there is room for it, and for its mapping a free pin and a slot: an input slot for a digital or analog input, an output slot for a digital or PWM output |
| ScheduleRuntime.Operate | packages/flova-embedded-sdk/include/FlovaScheduleRuntime.h:87-163 | Over any mix of runs, failed writes and power losses each schedule's actions strictly advance, so none is taken twice, each applied action is the one of its number, and it was due in 64-bit arithmetic and before the manifest expired; whatever progress was on record, up to the first restart whose restored progress cannot be run from, and to the end if it was that of this manifest |
| OfflineSchedules.Follow | packages/flova-arduino/include/FlovaArduino.h:1269-1346 | A valid configuration compiled, installed and run through any mix of ticks, failed writes and power losses: every action taken is one of its schedule unit's own actions, at one of its chunk times plus the action's offset and before the earliest validity end, and none is taken twice |
| OfflineSchedules.CompiledIsOrdered | packages/flova-embedded-sdk/include/FlovaScheduleRuntime.h:137-161 | What a compiled manifest makes due is what the schedule units order |
| ScheduleRuntime.DueAtIff | packages/flova-embedded-sdk/include/FlovaScheduleRuntime.h:145-145 | An action is due at its time if and only if that fits 64 bits, and otherwise less than its offset after the epoch |
| ScheduleRuntime.TakenInTime | packages/flova-embedded-sdk/include/FlovaScheduleRuntime.h:137-161 | Every action applied is the one of its number in the schedule and, when its time fits 64 bits, was not applied before its occurrence plus its own offset |
| ScheduleRuntime.NeverTwice | packages/flova-embedded-sdk/include/FlovaScheduleRuntime.h:138-160 | No occurrence of an action is taken twice, and none after a later one |
| ScheduleRuntime.DueAtWitness | packages/flova-embedded-sdk/include/FlovaScheduleRuntime.h:145-145 | In a valid manifest an occurrence at the last millisecond with an offset of one is due at time zero |
| ScheduleRuntime.Runtime.Run | packages/flova-embedded-sdk/include/FlovaScheduleRuntime.h:124-163 | A run takes due actions in order without gaps; one without a write failure stops only when no enabled schedule's next action is due |
| ScheduleRuntime.Runtime.RunSchedule | packages/flova-embedded-sdk/include/FlovaScheduleRuntime.h:137-161 | The inner loop touches one schedule and leaves it settled unless a write failed |
| ScheduleRuntime.Runtime.TakeNext | packages/flova-embedded-sdk/include/FlovaScheduleRuntime.h:138-160 | Progress is durable before the action; a failed write takes the step back and acts not; working storage never fails |
| ScheduleRuntime.Runtime.RestoreProgress | packages/flova-embedded-sdk/include/FlovaScheduleRuntime.h:236-245 | The loop restores exactly the stored progress with out-of-range schedules reset |
| ScheduleRuntime.Runtime.ManifestValid | packages/flova-embedded-sdk/include/FlovaScheduleRuntime.h:219-228 | The checks of a stored manifest in their order decide whether it is well formed |
| ScheduleManifests.ManifestExample | packages/flova-embedded-sdk/include/FlovaScheduleRuntime.h:200-216 | What is mixed into the checksum of a manifest, in order |
| ScheduleManifests.ScheduleExample | packages/flova-embedded-sdk/include/FlovaScheduleRuntime.h:204-213 | What is mixed in of a schedule: id, flag, actions, occurrences |
| ScheduleManifests.ValueExamples | packages/flova-embedded-sdk/include/FlovaScheduleRuntime.h:250-256 | What is mixed in of a value of each type |
| ScheduleRuntime.Runtime.RestoredFitsIff | packages/flova-embedded-sdk/include/FlovaScheduleRuntime.h:236-245 | Restored progress can be run from if and only if no enabled schedule with an occurrence left has a stored action number one past its last action, the case the comparison lets through |
| ScheduleRuntime.Runtime.RestoredUnfitWitness | packages/flova-embedded-sdk/include/FlovaScheduleRuntime.h:236-245 | For a valid manifest of one action, progress one past it is restored and cannot be run from |
| ScheduleRuntime.Runtime.Begin | packages/flova-embedded-sdk/include/FlovaScheduleRuntime.h:87-92 | A restart succeeds exactly for a well-formed stored manifest and resumes it with the restored progress; the history of taken actions then goes on exactly when that progress can be run from |
| ScheduleRuntime.Runtime.InstallPrepared | packages/flova-embedded-sdk/include/FlovaScheduleRuntime.h:112-122 | Installation makes the compiled manifest durable and starts its progress anew, and succeeds for every well-formed manifest over working storage |
| ScheduleRuntime.Runtime.StartsOverIff | packages/flova-embedded-sdk/include/FlovaScheduleRuntime.h:112-122 | A new manifest starts at its first actions if and only if the progress on record has each of its schedules at the beginning or out of range |
| ScheduleRuntime.Runtime.StaleProgressWitness | packages/flova-embedded-sdk/include/FlovaScheduleRuntime.h:112-122 | Progress of the manifest before makes a valid new one pass over its first occurrence |
| ScheduleCompiler.Compile | packages/flova-arduino/include/FlovaArduino.h:1269-1346 | Every list the verifier accepts compiles under any revision but zero, no unit refused on the way; the manifest passes the runtime's check, holds each schedule with its chunks concatenated in order, ends with the earliest schedule, asks for renewal 14 days before that or at the end of a shorter validity, and carries the common generation time; without schedules the compiler stays off and every unit passes |
| ScheduleCompiler.Survey | packages/flova-arduino/include/FlovaArduino.h:1284-1299 | The counting pass finds the number of schedules and their common times and refuses no valid list |
| ScheduleCompiler.Prepare | packages/flova-arduino/include/FlovaArduino.h:1301-1314 | The compiler starts with these times, renewal 14 days ahead of the end |
| ScheduleCompiler.ApplyUnit | packages/flova-arduino/include/FlovaArduino.h:1557-1567 | No unit of a valid list is refused, with the compiler on or off |
| ScheduleCompiler.NoneRefused | packages/flova-arduino/include/FlovaArduino.h:1284-1289 | The refusals of the counting pass cannot be reached with a valid list |
| ScheduleCompiler.NoSchedules | packages/flova-arduino/include/FlovaArduino.h:1557-1561 | A valid list without schedules has no occurrence chunks either, so the compiler may stay off |
| ScheduleCompiler.Compiler.Begin | packages/flova-embedded-sdk/include/FlovaScheduleRuntime.h:284-296 | Starts exactly when revision, validity end and renewal time are set and the schedules fit |
| ScheduleCompiler.Compiler.AddSchedule | packages/flova-embedded-sdk/include/FlovaScheduleRuntime.h:298-321 | Exactly when a schedule is taken, and the whole slot it then occupies, the next one or its own: a repeated id starts it over without occurrences and chunks but with the chunk total announced before |
| ScheduleCompiler.Compiler.AddOccurrences | packages/flova-embedded-sdk/include/FlovaScheduleRuntime.h:323-332 | A chunk is taken if and only if it is the next one of an added schedule and fits; a refused one changes nothing |
| ScheduleCompiler.Compiler.Finish | packages/flova-embedded-sdk/include/FlovaScheduleRuntime.h:334-340 | Succeeds exactly when every slot has all announced chunks, and seals the manifest |
| ScheduleCompiler.Compiler.SlotFound | packages/flova-embedded-sdk/include/FlovaScheduleRuntime.h:301-304 | Slots are found by the decimal text of their id exactly when the schedule was added |
| ScheduleCompiler.DecimalRoundTrip | packages/flova-embedded-sdk/include/FlovaScheduleRuntime.h:301-306 | Reading the decimal text of an id gives the id back |
| ScheduleCompiler.ValidUntilIsEarliest | packages/flova-arduino/include/FlovaArduino.h:1284-1297 | The horizon of a configuration is the earliest of its schedules |
| ScheduleCompiler.GeneratedAtIsEarliest | packages/flova-arduino/include/FlovaArduino.h:1291-1293 | The generation time is the earliest start of the schedules after the last one that starts at zero |
| CborWalker.ValidateCanonicalCbor | packages/flova-embedded-sdk/include/FlovaLinkCbor.h:158-163 | A payload is accepted if and only if it is the shortest-form encoding of one item within the limits, the keys of each map distinct and in any order |
| CborWalker.Walk | packages/flova-embedded-sdk/include/FlovaLinkCbor.h:93-154 | The cursor walk accepts and advances exactly as the parse of one item |
| CborWalker.WalkEntries | packages/flova-embedded-sdk/include/FlovaLinkCbor.h:139-153 | Map entries are walked with keys compared as octet slices |
| CborWalker.ReadArgument | packages/flova-embedded-sdk/include/FlovaLinkCbor.h:69-86 | An argument is read exactly when it stands in its shortest form |
| Cbor.ParseEncode | scripts/generate_flova_link_vectors.py:34-51 | The encoding of any item within the limits, map entries in the order given, is parsed back to that item, whatever follows |
| Cbor.ParseSound | packages/flova-embedded-sdk/include/FlovaLinkCbor.h:93-154 | Whatever is accepted is the encoding of the item it is parsed to |
| Cbor.EncodingsPrefixFree | packages/flova-embedded-sdk/include/FlovaLinkCbor.h:93-163 | Two items with the same start are the same item: encodings are prefix-free |
| CborOrder.ReferenceIff | scripts/generate_flova_link_vectors.py:34-56 | An item encodes with its map entries sorted, by length and octets as the script does or bytewise, if and only if the keys of all its maps ascend in that order |
| CborOrder.AcceptedReferenceIff | packages/flova-embedded-sdk/include/FlovaLinkCbor.h:139-163 | An accepted payload is the reference encoding of its item if and only if the keys of every map in it ascend, in either order |
| CborOrder.ReferenceForgetsOrder | scripts/generate_flova_link_vectors.py:52-55 | Maps whose entries are the same in different order have one reference encoding, unless arranging leaves one key with two values |
| CborOrder.SortedAscends | scripts/generate_flova_link_vectors.py:52-55 | Sorting puts entries in ascending order and neither loses nor adds one |
| CborOrder.EncodeInjective | scripts/generate_flova_link_vectors.py:34-51 | Any two items with a common start are equal, whether or not the limits admit them |
| CborOrder.OrdersDiffer | scripts/generate_flova_link_vectors.py:52-55 | A map with keys 100 and -1 is in bytewise order and not in the order of the script |
| CborOrder.OrderWitness | packages/flova-embedded-sdk/include/FlovaLinkCbor.h:139-153 | Two payloads of one map, in ascending and descending order, are both accepted; only the first is the reference encoding |
| Cbor.ArgumentOfHead | scripts/generate_flova_link_vectors.py:22-31 | The shortest-form head is read back to its major type and value |
| Cbor.HeadOfArgument | packages/flova-embedded-sdk/include/FlovaLinkCbor.h:69-86 | An accepted argument is the shortest form of its value |
| Utf8Validators.ValidCborText | packages/flova-embedded-sdk/include/FlovaLinkCbor.h:35-67 | Accepts exactly the encodings of scalar values of RFC 3629 |
| Utf8Validators.ValidCloseText | packages/flova-arduino/include/FlovaWs.h:702-738 | Accepts exactly the encodings of scalar values of RFC 3629, hence the same strings as the other validator |
| Utf8Validators.ValueDecides | packages/flova-embedded-sdk/include/FlovaLinkCbor.h:61-64 | With its continuation octets there, the denoted value alone decides whether a character is well formed |
| Utf8.ScanIff | packages/flova-arduino/include/FlovaWs.h:702-738 | Scanning by the grammar of section 4 of RFC 3629 accepts exactly the concatenations of encoded scalar values |
| Utf8.CharSound | packages/flova-embedded-sdk/include/FlovaLinkCbor.h:55-64 | A character of the grammar encodes a scalar value, and shortest |
| Utf8.CharComplete | packages/flova-embedded-sdk/include/FlovaLinkCbor.h:42-64 | The encoding of every scalar value is a character of the grammar |
| WebSocketReceiver.Session | packages/flova-arduino/include/FlovaWs.h:225-273 | For every stream, every arrival pattern and every sequence of read capacities the delivered octets and message ends are a beginning of the whole-stream decode, the answers a beginning of the replies it calls for, and both all of it once the stream is used up, refused or closed; a server reads just these answers, frame after frame, in the octets the writer took; with the stream there, a connection that holds and non-empty buffers, as many reads as octets always get there |
| WebSocketReceiver.Receiver.Read | packages/flova-arduino/include/FlovaWs.h:225-273 | What one read returns continues the whole-stream decode; a failed one says what the decode says unless the connection gave way; one with nothing to report has used up what arrived, and over a connection that holds every read makes progress or has |
| WebSocketReceiver.Receiver.Pump | packages/flova-arduino/include/FlovaWs.h:237-272 | The frame loop makes progress with every round and never delivers twice |
| WebSocketReceiver.Receiver.StartFrame | packages/flova-arduino/include/FlovaWs.h:632-669 | A frame is refused exactly when the decode refuses it, with the same error |
| WebSocketReceiver.Receiver.CheckFrame | packages/flova-arduino/include/FlovaWs.h:632-660 | The checks in the order of the source give the refusal of the specification |
| WebSocketReceiver.Receiver.PayloadLength | packages/flova-arduino/include/FlovaWs.h:636-644 | The length is accumulated without losing a bit |
| WebSocketReceiver.Receiver.ReadHeader | packages/flova-arduino/include/FlovaWs.h:618-630 | A header is whole exactly when it parses, however its octets arrived |
| WebSocketReceiver.Receiver.FinishFrame | packages/flova-arduino/include/FlovaWs.h:671-677 | The end of a frame moves the boundary and reports a message end exactly for a final data frame |
| WebSocketReceiver.Receiver.FinishControl | packages/flova-arduino/include/FlovaWs.h:679-690 | Control frames leave the data alone; what is queued for a ping is a frame in which a server reads a pong with its payload; a close is answered in kind and ends the stream, or is a protocol error; over a free writer no answer is lost |
| WebSocketReceiver.Receiver.FinishClose | packages/flova-arduino/include/FlovaWs.h:680-686 | A close with a payload ends the connection with the verdict of the whole-stream decode, answered if and only if it is valid and can be written |
| WebSocketReceiver.Receiver.ValidClosePayload | packages/flova-arduino/include/FlovaWs.h:692-700 | A close payload is accepted exactly when empty or a permitted code followed by text |
| WebSocketReceiver.Receiver.SendFrame | packages/flova-arduino/include/FlovaWs.h:585-595 | What is queued is one more frame in which a server reads the opcode and the payload, under whatever mask |
| WebSocketReceiver.ControlFrameRead | packages/flova-arduino/include/FlovaWs.h:585-595 | A server reads in a control frame just the opcode and payload it was made from: final, masked, of that length |
| WebSocketReceiver.Receiver.ServiceControl | packages/flova-arduino/include/FlovaWs.h:276-284 | Draining a reply loses no octet and sends none twice |
| WebSocketFrames.OneMoreRead | packages/flova-arduino/include/FlovaWs.h:585-595 | A frame behind frames adds one more answer to what a server reads |
| WebSocketReceiver.Receiver.DeliveredIsPrefix | packages/flova-arduino/include/FlovaWs.h:225-273 | At rest, what was delivered is a beginning of the whole decode, and what was answered of the replies it calls for |
| WebSocketReceiver.Receiver.DeliveredIsAll | packages/flova-arduino/include/FlovaWs.h:225-273 | With the stream used up, everything it holds has been delivered and every control frame with a payload answered |
| WebSocketFrames.MessagesBounded | packages/flova-arduino/include/FlovaWs.h:649-650 | No stream ever yields a message of more than 512 octets |
| WebSocketFrames.DecodeLegal | packages/flova-arduino/include/FlovaWs.h:225-273 | Legal frames are delivered whole: fragments joined, control frames invisible |
| WebSocketFrames.ControlTransparent | packages/flova-arduino/include/FlovaWs.h:254-264 | A ping or pong anywhere leaves the rest to be decoded as if it were not there |
| WebSocketFrames.CloseEndsIff | packages/flova-arduino/include/FlovaWs.h:254-264 | A close frame ends the stream, valid or refused, if and only if it has a payload; an empty one is passed over |
| WebSocketFrames.AnsweredIff | packages/flova-arduino/include/FlovaWs.h:679-690 | A ping is answered if and only if it has a payload, a close if and only if it has a valid one, a pong never |
| WebSocketFrames.ControlAnswered | packages/flova-arduino/include/FlovaWs.h:679-690 | The answers to a stream are those to its control frames one by one, up to a close with a payload |
| WebSocketFrames.DataDelivered | packages/flova-arduino/include/FlovaWs.h:265-272 | A legal data frame delivers its payload and, if final, a message end |
| FileTransactions.RecordStorage.Write | packages/flova-esp8266/include/FlovaEsp8266Services.h:63-139 | Whatever fails and wherever the power is cut a read of the written size gives the old value or the new one, the new one if the write returned true, and none only where the primary file had another size; readers of other sizes never find a newer one; a backup left holds the previous record and working storage leaves none; other keys are untouched |
| FileTransactions.RecordStorage.Read | packages/flova-esp8266/include/FlovaEsp8266Services.h:47-61 | Reads the primary file if its size is right, else the backup; when files fail to open, at most one of the two or nothing |
| FileTransactions.RecordStorage.Stage | packages/flova-esp8266/include/FlovaEsp8266Services.h:79-109 | Only the staging file changes, and success means it holds exactly the value |
| FileTransactions.RecordStorage.Retire | packages/flova-esp8266/include/FlovaEsp8266Services.h:111-122 | The value of every size that can be kept survives the move of the primary file to the backup at every point, and the backup is then the previous record |
| FileTransactions.RecordStorage.Install | packages/flova-esp8266/include/FlovaEsp8266Services.h:123-137 | The staged value replaces the old one or the old one is restored; over storage that works but cannot be read back, the backup is put back in place |
| FileTransactions.RecordStorage.Matches | packages/flova-esp8266/include/FlovaEsp8266Services.h:224-246 | The chunked comparison succeeds only if the file equals the value |
| FileTransactions.RecordStorage.MakePath | packages/flova-esp8266/include/FlovaEsp8266Services.h:248-263 | Exactly the usable keys get a path |
| FileTransactions.RecordStorage.Remove | packages/flova-esp8266/include/FlovaEsp8266Services.h:141-166 | Success means all three files are gone; otherwise the value is the old one, the backup's or none |
| FileTransactions.Run | packages/flova-esp8266/include/FlovaEsp8266Services.h:63-139 | In any run of writes of any sizes, failures and power cuts a reader of any size never goes back behind the last write of its size that returned true, and finds nothing only if other sizes come into play; no other key is touched |
| FileTransactions.PathsApart | packages/flova-esp8266/include/FlovaEsp8266Services.h:63-76 | No two keys share a file, although keys may contain dots |
| FileTransactions.PathExamples | packages/flova-esp8266/include/FlovaEsp8266Services.h:248-263 | The three paths of a key, and which texts are keys |
| FileTransactions.OthersKeepValue | packages/flova-esp8266/include/FlovaEsp8266Services.h:63-139 | Writing one key never changes what another reads |
| FileTransactions.RetireKeepsValueIff | packages/flova-esp8266/include/FlovaEsp8266Services.h:111-122 | Retiring the primary file keeps the value if and only if its size is right or the backup's is wrong |
| FileTransactions.ReadsRightIff | packages/flova-esp8266/include/FlovaEsp8266Services.h:211-219 | Reads in which files fail to open never give a wrong value if and only if no right-sized backup differs from the primary file |
| FileTransactions.StaleWitness | packages/flova-esp8266/include/FlovaEsp8266Services.h:123-158 | A write of 2 over 1 whose last removal fails leaves files from which a read, or a removal cut short, can bring back 1 |
| FileTransactions.RemovedPrimaryGoneIff | packages/flova-esp8266/include/FlovaEsp8266Services.h:155-158 | A removal cut short after its first step brings an older value back if and only if a backup was left |
| LinkTask.Run | packages/flova-esp32/include/FlovaEsp32Platform.h:34-82 | Every interleaving of the two tasks keeps the handshake, ring and transmit invariants |
| LinkTask.StepKeeps | packages/flova-esp32/include/FlovaEsp32Platform.h:260-330 | Every atomic step of either task keeps them |
| LinkTask.ConnectionsApart | packages/flova-esp32/include/FlovaEsp32Platform.h:295-326 | On every connection the octets read are a beginning of those that arrived on that same connection, at most 1024 behind, and those written to its socket a beginning of those submitted for it |
| LinkTask.FifoStep | packages/flova-esp32/include/FlovaEsp32Platform.h:309-318 | The ring refines a queue of at most 1024 octets: each step leaves it, appends the arriving octet, takes the front one a read returns, or empties it for a new connection |
| LinkTask.PastSettled | packages/flova-esp32/include/FlovaEsp32Platform.h:52-82 | Once a newer connection was started nothing more happens on an older one |
| LinkTask.AvailableCounts | packages/flova-esp32/include/FlovaEsp32Platform.h:37-39 | The difference of the wrapping counters is the number of unread octets |
| LinkTask.PeerCloseDrained | packages/flova-esp32/include/FlovaEsp32Platform.h:319-320 | An orderly close by the peer is reported only after everything that arrived was read |
| LinkTask.Received | packages/flova-esp32/include/FlovaEsp32Platform.h:310-318 | The check against a stale copy of the consumer counter never overwrites an unread octet, also when the counters wrap at 2^32 |
| LinkTask.CellRead | packages/flova-esp32/include/FlovaEsp32Platform.h:40-46 | A read takes the oldest unread octet |
| LinkTask.ProducedCleared | packages/flova-esp32/include/FlovaEsp32Platform.h:52-62 | A start finds the task at rest, so nothing of the older connection can appear on the new one |
| LinkTask.SendWritten | packages/flova-esp32/include/FlovaEsp32Platform.h:297-308 | The socket takes what is next in line of what was submitted |
| LinkTaskProgress.ReadTakes | packages/flova-esp32/include/FlovaEsp32Platform.h:40-46 | An undisturbed read of an open link returns the oldest octet not yet read and moves on by one; of a closed or empty one it changes nothing |
| LinkTaskProgress.SubmitTakes | packages/flova-esp32/include/FlovaEsp32Platform.h:86-92 | A submission of 1 to 526 octets to an open link with nothing under way hands over exactly these octets, any other changes nothing |
| LinkTaskProgress.StartOpens | packages/flova-esp32/include/FlovaEsp32Platform.h:52-72 | A start of a closed link withdraws the last cancellation and generation, empties ring and buffer and asks for a connection; of any other link, or once stopping, it changes nothing |
| LinkTaskProgress.CloseCancels | packages/flova-esp32/include/FlovaEsp32Platform.h:79-82 | A close withdraws the generation and cancels |
| LinkTaskProgress.TaskConnects | packages/flova-esp32/include/FlovaEsp32Platform.h:265-292 | A request that nobody withdraws is connected and announced as the connection started last |
| LinkTaskProgress.FirstConnection | packages/flova-esp32/include/FlovaEsp32Platform.h:52-72 | From the first state a start and a working socket lead to a connected link |
| LinkTaskProgress.GuardServesIff | packages/flova-esp32/include/FlovaEsp32Platform.h:295-296 | The task goes on serving a connection exactly while it is neither stopped, cancelled nor of an older generation |
| LinkTaskProgress.NotDialled | packages/flova-esp32/include/FlovaEsp32Platform.h:277-326 | A cancelled request is not dialled and a failed dialling is not announced: the task reports idle or failed and is at rest |
| LinkTaskProgress.StaleNotAnnounced | packages/flova-esp32/include/FlovaEsp32Platform.h:291-292 | A connection cancelled or superseded while it was dialled is never announced |
| LinkTaskProgress.CancelledStops | packages/flova-esp32/include/FlovaEsp32Platform.h:295-326 | Once cancelled, a task that has not yet reported is at rest and idle after a bounded number of its own steps, whatever the socket does |
| Resources.ResourceManager.Reserve | packages/flova-embedded-sdk/include/FlovaResources.h:54-68 | Accepts exactly the requests within the ceiling and clear of the others' reservations, in 32-bit arithmetic, and keeps every reservation when the demand does not wrap |
| Resources.ResourceManager.Release | packages/flova-embedded-sdk/include/FlovaResources.h:70-75 | Gives back at most what is held and keeps every reservation |
| Resources.ResourceManager.Configure | packages/flova-embedded-sdk/include/FlovaResources.h:44-52 | Budgets whose reservations fit the total start out honoured |
| Resources.ResourceManager.ProtectedBytes | packages/flova-embedded-sdk/include/FlovaResources.h:57-62 | The loop sums what the other kinds are still owed |
| Resources.OwnReservationMet | packages/flova-embedded-sdk/include/FlovaResources.h:54-68 | A request within a kind's own reservation and ceiling always succeeds |
| Resources.AdmittedHonouredIff | packages/flova-embedded-sdk/include/FlovaResources.h:54-68 | An accepted request keeps all reservations if and only if its demand stays below 2^32 |
| Resources.WrappedWitness | packages/flova-embedded-sdk/include/FlovaResources.h:54-68 | Of 100 reserved bytes another kind is granted nearly 2^32 |
| Resources.ReleaseHonoured | packages/flova-embedded-sdk/include/FlovaResources.h:70-75 | Giving bytes back breaks no reservation |
| Resources.Run | packages/flova-embedded-sdk/include/FlovaResources.h:54-75 | Every run of requests and releases keeps all reservations and ceilings up to the first request that is granted although its demand passes 2^32, and there is none while each request and the total fit 32 bits |
| DeviceHistory.HistoryRing.QueueHistory | packages/flova-embedded-sdk/include/FlovaDevice.h:1116-1136 | The queue loses some oldest records and may gain the new one; over working storage it is exactly what the retention policy says; bytes in use stay the record size times the count, plus what a second restore lost |
| DeviceHistory.HistoryRing.DropOldest | packages/flova-embedded-sdk/include/FlovaDevice.h:1145-1145 | Exactly the head is retired and its bytes returned, even if its slot cannot be removed |
| DeviceHistory.HistoryRing.Expire | packages/flova-embedded-sdk/include/FlovaDevice.h:1152-1158 | Only expired records at the head go, and all of them over readable storage |
| DeviceHistory.HistoryRing.MakeRoom | packages/flova-embedded-sdk/include/FlovaDevice.h:1125-1125 | No more records are given up than the limits demand |
| DeviceHistory.HistoryRing.Append | packages/flova-embedded-sdk/include/FlovaDevice.h:1126-1135 | A record is queued behind the others exactly when there is a slot, the bytes and a successful write, and every other outcome is accounted for |
| DeviceHistory.HistoryRing.Flush | packages/flova-embedded-sdk/include/FlovaDevice.h:1137-1144 | Only the head is sent, at most every five seconds, and it is sent when it is due, readable and accepted |
| DeviceHistory.HistoryRing.Answer | packages/flova-embedded-sdk/include/FlovaDevice.h:1199-1212 | An answer retires the head if and only if it names it |
| DeviceHistory.HistoryRing.Restore | packages/flova-embedded-sdk/include/FlovaDevice.h:1160-1164 | A restart takes up a beginning of the listed records, all of them when they can be read and paid for; a second restore keeps the bytes of the old queue reserved with no record to account for them |
| DeviceHistory.HistoryRing.SyncedRestores | packages/flova-embedded-sdk/include/FlovaDevice.h:1159-1164 | With the index in step a restart finds exactly the queue |
| DeviceHistory.EvictionsLeast | packages/flova-embedded-sdk/include/FlovaDevice.h:1125-1125 | The newest records stay, as many as leave room for one more |
| DeviceHistory.UnexpiredSplits | packages/flova-embedded-sdk/include/FlovaDevice.h:1152-1158 | Expiry takes off exactly the expired records in front of the first live one |
| DeviceHistory.ListedIsQueue | packages/flova-embedded-sdk/include/FlovaDevice.h:1160-1164 | An index in step with the queue restores it |
| DeviceHistory.EnqueueCutShort | packages/flova-embedded-sdk/include/FlovaDevice.h:1129-1135 | A restart between record and index finds the queue without the new record |
| DeviceHistory.DropCutShortIff | packages/flova-embedded-sdk/include/FlovaDevice.h:1145-1145 | A restart between the removal of the head and the index keeps the rest if and only if there was none |
| DeviceHistory.DropCutShortWitness | packages/flova-embedded-sdk/include/FlovaDevice.h:1145-1145 | Of two stored records none is found after the head was removed without the index |
| DeviceDelivery.Window.Publish | packages/flova-embedded-sdk/include/FlovaDevice.h:993-1023 | At most one outstanding delivery per stream under distinct ids; held back exactly when sent less than five seconds ago; what is sent is the present value, under the old id for the same revision and the next id otherwise, and the turn passes to the next stream |
| DeviceDelivery.Window.FinishDelivery | packages/flova-embedded-sdk/include/FlovaDevice.h:1025-1035 | An answer frees the entry it names and settles a stream if and only if the updates since the message sent under that id are a multiple of 2^32: none means its present value was sent |
| DeviceDelivery.Window.Update | packages/flova-embedded-sdk/include/FlovaDevice.h:964-982 | The new value with one more revision, dirty exactly when bound and connected or kept; offered to the link exactly when bound and connected; no other stream changes |
| DeviceDelivery.Window.Sweep | packages/flova-embedded-sdk/include/FlovaDevice.h:314-319 | Unless the link refuses a message, and one that takes all never does, every dirty stream is outstanding afterwards or the window is full |
| DeviceDelivery.Window.EntryCarries | packages/flova-embedded-sdk/include/FlovaDevice.h:1025-1035 | An outstanding delivery notes the stream's present revision if and only if every message sent under its id is a multiple of 2^32 updates old; less than 2^32 means the present value |
| DeviceDelivery.Window.FindEntry | packages/flova-embedded-sdk/include/FlovaDevice.h:996-1004 | The entry of a stream, else the first free one, else none |
| DeviceLinkSend.Sender.SendEncoded | packages/flova-arduino/include/adapters/ArduinoDeviceLink.h:646-690 | What is submitted unwraps and decodes to the same type, id and payload, also when the transport then fails to write it; every refusal happens exactly for its reason; an open, idle link submits every canonical payload of a known type unless the transport refuses |
| DeviceLinkSend.Sender.PrepareBinary | packages/flova-arduino/include/FlovaWs.h:171-217 | One masked frame at the front of the buffer from data anywhere in it, overlap included |
| DeviceLinkSend.Sender.Place | packages/flova-arduino/include/FlovaWs.h:211-214 | Moving, masking in place and then writing the header loses nothing |
| DeviceLinkSend.SendRoundTrip | packages/flova-arduino/include/adapters/ArduinoDeviceLink.h:646-690 | Unwrapping the masked frame of any link frame gives the link frame |
| DeviceLinkSend.UnwrapFrame | packages/flova-arduino/include/FlovaWs.h:191-215 | A framed and masked message unwraps to itself for every mask and both length forms |
| LinkCodec.EncodeFrameHeader | packages/flova-embedded-sdk/include/FlovaLinkCodec.h:41-56 | Writes exactly the twelve header octets in place, or refuses and writes nothing |
| LinkCodec.DecodeMessage | packages/flova-embedded-sdk/include/FlovaLinkCodec.h:58-85 | Accepts exactly the wire forms of frames and returns the one frame each stands for |
| LinkCodec.FrameFields | packages/flova-embedded-sdk/include/FlovaLinkCodec.h:41-85 | Every field of a frame is read back from its wire form |
| LinkCodec.KnownTypes | packages/flova-embedded-sdk/include/FlovaLinkCodec.h:16-29 | The message types one by one |
| WebSocketFrames.UnmaskMasked | packages/flova-arduino/include/FlovaWs.h:212-213 | Masking twice restores the data |
| WebSocketFrames.HelloMasked | packages/flova-arduino/include/FlovaWs.h:212-213 | The masked text of the examples in section 5.7 of RFC 6455 |
| WebSocketFrames.PongRead | packages/flova-arduino/include/FlovaWs.h:585-595 | The answer to a ping of two octets, octet by octet; unmasked it would be read otherwise |
| WebSocketFrames.ReadsOne | packages/flova-arduino/include/FlovaWs.h:585-595 | A server reads one opcode and one payload in a frame |
| SecretText.RoundTrip | packages/flova-arduino/include/FlovaProvisioningHandoff.h:10-31 | The decoder undoes the generator for secrets of every length |
| SecretText.GenerateSecret | packages/flova-arduino/include/FlovaProvisioningHandoff.h:10-31 | The text denotes the padded secret; 32 octets give 43 characters |
| SecretText.EncodeOctet | packages/flova-arduino/include/FlovaProvisioningHandoff.h:20-25 | The wrapping accumulator shows the unconsumed bits of everything taken so far |
| SecretText.DecodeSecret | packages/flova-arduino/include/adapters/ArduinoDeviceLink.h:1393-1412 | Accepts exactly the texts over the alphabet with that many whole octets, and what they decode to |
| SecretText.DecodeCharacter | packages/flova-arduino/include/adapters/ArduinoDeviceLink.h:1399-1409 | The octets written show all but the unconsumed bits of the text taken so far; a character is refused exactly when it is foreign or one octet too many |
| SecretText.LowBits | packages/flova-arduino/include/FlovaProvisioningHandoff.h:23-24 | A window into the 32-bit accumulator shows what it would show of the whole number |
| FactoryResetGesture.Run | packages/flova-embedded-sdk/include/FlovaFactoryResetGesture.h:34-119 | At most one confirmation per configuration, the count tells whether there was one, each was earned, and nothing is reported after it: since the last arming exactly the taps asked for, the hold, the release request no sooner than the hold time with the button down throughout, and nothing else |
| GestureMachine.ProperGestureConfirmed | packages/flova-embedded-sdk/include/FlovaFactoryResetGesture.h:34-119 | The gesture in its limits, half a second up, the taps asked for, the full hold and the release in time, is confirmed whatever the clock shows when it wraps |
| GestureMachine.TapsCount | packages/flova-embedded-sdk/include/FlovaFactoryResetGesture.h:63-83 | Every tap of at most two seconds, debounced and at most two seconds after the one before, counts |
| GestureMachine.HoldConfirms | packages/flova-embedded-sdk/include/FlovaFactoryResetGesture.h:84-114 | A hold begun within three seconds and held for the full time confirms, or does so on its release within five seconds |
| GestureMachine.FirstUpdateClosesIff | packages/flova-embedded-sdk/include/FlovaFactoryResetGesture.h:34-40 | The first update closes the window at once exactly when the clock reads zero |
| FactoryResetGesture.Gesture.Update | packages/flova-embedded-sdk/include/FlovaFactoryResetGesture.h:34-119 | Every update makes the step of the machine that `ProperGestureConfirmed` is about, keeps the bookkeeping of `Run`, and the debounced button follows only a reading that was steady for the debounce time |
| FactoryResetGesture.Gesture.Debounce | packages/flova-embedded-sdk/include/FlovaFactoryResetGesture.h:42-47 | The debounced button changes only after a steady reading, under 32-bit time |
| FactoryResetGesture.Gesture.HeldLongEnough | packages/flova-embedded-sdk/include/FlovaFactoryResetGesture.h:95-103 | A hold of the full length asks for the release, or confirms when no release is asked for |
| FactoryResetGesture.Gesture.WhileAwaitConfirmRelease | packages/flova-embedded-sdk/include/FlovaFactoryResetGesture.h:105-114 | Release in time confirms, otherwise the confirmation expires |
| FactoryResetGesture.Gesture.WhileAwaitRelease | packages/flova-embedded-sdk/include/FlovaFactoryResetGesture.h:50-62 | Arms exactly when the debounced button has been up for half a second |
| FactoryResetGesture.Gesture.WhileAwaitTapPress | packages/flova-embedded-sdk/include/FlovaFactoryResetGesture.h:63-70 | A press goes on; two seconds without one start over once a tap was made |
| FactoryResetGesture.Gesture.WhileAwaitTapRelease | packages/flova-embedded-sdk/include/FlovaFactoryResetGesture.h:71-83 | A tap is a press of at most two seconds; a longer one starts over |
| FactoryResetGesture.Gesture.WhileAwaitHold | packages/flova-embedded-sdk/include/FlovaFactoryResetGesture.h:84-91 | A press starts the hold; three seconds without one start over |
| FactoryResetGesture.Gesture.WhileHolding | packages/flova-embedded-sdk/include/FlovaFactoryResetGesture.h:92-104 | Letting go too early starts over; a full hold goes on |
| FactoryResetGesture.Gesture.CountTap | packages/flova-embedded-sdk/include/FlovaFactoryResetGesture.h:77-80 | Each tap counts once and the hold is awaited after exactly the taps asked for, 256 of them for a count of zero |
| FactoryResetGesture.Elapsed | packages/flova-embedded-sdk/include/FlovaFactoryResetGesture.h:37-47 | 32-bit differences never overstate the time that has passed |

## Left out

- ConfigurationRuns.Run: stops at the first event that is not lawful: an offer of a new generation in the active
  bank, a switch to a bank without any manifest, a drop in the active bank. `Perform` says what such an event does;
  the run is not followed beyond it. Its power cut restarts the installer alone: a start that accepts the active
  generation touches nothing, and one that does not ends the run as `ConfigurationRestore.RunAndRestart` says.
- ConfigurationRestore.Restore: the validation of the units is a parameter, decided by `ConfigurationVerifier`;
  failures while the restored units are applied to the hardware, and the restore of a single generation during
  provisioning, are not modelled.
- DurableStorage.Storage: reads succeed while the power is on; a read that fails for a moment would make
  the active generation look like none.
- ConfigurationInstaller.Installer.AddRecord: the record is a separate argument; the client also passes the
  installer its own workspace, which makes the comparison after reading back trivially true.
- ConfigurationTypes.Record: holds the octets in use, not the rest of the fixed 448-octet array.
- ConfigurationVerifier.Work.Verify: the verdict of the device and the hardware on a single unit, pin
  resolution and record decoding are parameters of the board; a status pin of 65535, which the source uses for
  none, is not set apart.
- ScheduleRuntime.Runtime.InstallPrepared: a power cut inside an installation can leave old progress beside the
  new manifest and is not followed further; `install`, `checkpoint`, `clear`, renewal requests and status
  reports are not modelled.
- ScheduleRuntime.Runtime.Begin: progress numbers are unbounded, where the source has eight bits, so capacities
  up to 255 are meant; a run from progress that does not fit indexes past the actions and is not followed.
- Cbor.ParseEncode: floats are their octets; the generated schema codecs are not part of this model.
- WebSocketReceiver.Session: the owner reads no more after a failed read, as the link adapter does; a reply that
  cannot be written fails the read with the connection still open, and nothing is claimed of that ping or close.
- WebSocketReceiver.Receiver.Read: a null buffer is not modelled; sending, the opening handshake and its header
  lines are left out.
- DeviceLinkSend.Sender.PrepareBinary: the 64-bit length form and the last capacity check cannot be reached with
  messages of at most 512 octets.
- DeviceLinkSend.Sender.SendEncoded: the schema encoder is a parameter; the drain of the submitted octets belongs to
  the transport.
- FileTransactions.RecordStorage.Write: renames are atomic and existence checks truthful; mounting, clearing and
  capacity figures are left out.
- LinkTask.Run: atomics are sequentially consistent and the ring octets are read and written whole; the host name, the
  TLS client, logging and firmware updates are left out.
- DeviceHistory.HistoryRing.QueueHistory: diagnostics counters are unbounded; the minimum interval is decided before the
  call.
- DeviceDelivery.Window.Publish: message ids are unbounded where the source has 64 bits; command results and their
  storage share the id counter and are left out.
- DeviceDelivery.Window.Update: history and persistence of the value are left out here; a restore after a late binding,
  which can take a revision back, is not modelled.
- Resources.ResourceManager.Reserve: priorities and elasticity are stored by the source and never read.
- SecretText.GenerateSecret: entropy is the argument.
- Wi-Fi, BLE, TLS, HTTP, OTA, displays, Ethernet, provisioning screens and example sketches: input and output over
  libraries that are not part of this model.
- The Linux receive ring: its contiguous count can exceed the free space by one, so it is no queue.
- Pin policies, PWM ratios, retry backoff and URL parsing: easy members only.
