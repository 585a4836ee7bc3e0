# coldsnap: consent, durability and the codecs around them

A signing device holds one share of a threshold key. A coordinator sends it messages, a human presses
keys in front of its panel, and its power can go at any moment. This project models the device session and
the code around it as Dafny, and proves what the session promises both of them.

**The session.** `Sessions.Session` has the fields of the original and updates them in place; every method is
verified against a function of `SessionSpec`, which says what a call does to memory, what it writes to flash and
sends, in order, and what it answers. A run (`Runs.Ran`) is any sequence of calls, each either finished or cut
off after any of its effects, in which case the next state is a fresh boot of the flash as the cut left it. All
theorems about runs hold for every such sequence.

- *Consent.* `Consents` is the small machine inside the session: six fields and how a yes, a preview, a page, a
  key or a cancel moves them. The session refines it (`Consents.ExecMoves`), and everything about consents is
  proved once on it. A grant is live if and only if it was consented to and not ended since; a page is drawn only
  under a live consent to that share; a recorded frame means every page was drawn; a checked frame means the true
  word was named at eight different positions; and each such frame has a consent of its own.
- *Durability.* Effects are kept in order, so "before" and "after" are places in a list, and a cut is a prefix of
  it. An answer that reaches the outbox while a share was being stored means that a boot at that moment, or at any
  later point of the call, holds that share; and every later boot does, exactly until another index is programmed
  (`LastingRuns.AnsweredShareLastsIff`). Names obey the same discipline.
- *Provenance.* Every message is owed exactly one answer, prompts included (`Answers`). What the signer remembers
  between calls is what the last step to touch it put there (`SignerRuns.RemembersTheLast`), so a cancelled ceremony or
  a cancelled transcription leaves nothing to certify, check or save. Every share a run comes to hold, stage or store is
  on the key, threshold, name, purpose, image and ciphertext of one human yes (`KeptShares`); and where that human
  answers only what the session asked, it is the share of a ceremony begun under that name and purpose, certified and
  shown, or one typed in by hand (`Offers.EveryShareGoesBack`).
- *Flash.* Two copies, an index and two fault points a copy (`AbSlots`). What a slot reads after every outcome and
  every cut is settled exactly.

**The scripted human.** `Stub`, `StubQuiz`, `StubEntry` and `StubDrive` run the reveal, the quiz and the typing
against the session class through the glass alone: the screen is eight rows of sixteen cells, the cells behind noise
are arbitrary, and what is read off a row is proved to be what was printed on it. From any session, a reveal and a
check of one share end with all 25 words on paper and the quiz passed; and a share revealed on one device is taken
whole by another that has it typed in, letter by letter, from that paper (`StubDrive.RevealThenType`). The entry
machine (`Entries`), the word list searches under it (`WordLists`) and the quiz's draws (`RandomDraws`) are proved
for every word list of its shape and whatever the random words.

**Codecs and tools.** Length-prefixed preimages, the name record, the outbox, UTF-8 truncation and the page bit
set; the packer's layout and checks, the checker's rules, the firmware digest and the DfuSe walk; the take-once
guard under every interleaving; the allocator's accounting; the framebuffer's two encodings; the terminal
front-end.

## Where the code and its documentation part

The model follows the code. Each of these is proved, with the exact condition or with a run that shows it.

- `firmware/src/lib.rs:866-870` says a damaged share record was never acknowledged. An accepted write whose second
  copy tears with its index written, the first copy being in slot B, is acknowledged and reads as damaged
  (`AbSlots.CommittedIsReadableIffNoTornTie`, `Durability.AnswerMeansDurable`); a two-call run from a blank flash gets
  there (`Counterexamples.TornThenAcknowledged`).
- `firmware/src/lib.rs:616-618` says a refused name write leaves the previous name live. It does exactly when the
  index was not programmed (`AbSlots.RefusedKeepsOldIffIndexUnwritten`).
- `firmware/src/lib.rs:1919-1938` reasons as though `keygen_ack` staged the share. The share is staged when the
  coordinator finishes the ceremony, so the ack precedes the share's storage
  (`DurableRuns.KeygenAckPrecedesItsShare`); what the finish sends comes after it.
- A share asked about again after consolidation is acknowledged from memory. Flash keeps one share, so the
  acknowledged one may no longer be there (`DurableRuns.ReacknowledgedIsDurableIffOnRecord`,
  `Counterexamples.ReplacedThenReacknowledged`).
- `firmware/src/store.rs:276-281` says every refused save leaves the previous record intact, and that a flash fault
  committed nothing. A write refused once its index is programmed takes the previous record with it
  (`LastingRuns.StoredShareLastsIff`; `Counterexamples.RefusedThenLost` is a run that loses an acknowledged share so).
- The name record's checksum lies across the last two doublewords, not in the final one, because the record
  follows a 4-byte index. A save one doubleword short therefore reads as the whole name when the missing half of
  its tag is all ones (`NameStores.TornSaveIsNeverAnotherName`).
- The reveal and quiz questions cannot be drawn for a share index of ten digits, which most 32-bit values have
  (`Screens.ShareRowHoldsNineDigits`); such a share can be neither revealed nor checked.
- `BackupPages::render` is false past the end only until the page offset wraps (`BackupPages.DrawnPages`).
- The packer's version gate passes a dotted version led by a letter, and the checker's refuses it
  (`Packer.LetterLedVersionIsPackedAndRefused`); the packer also has no ceiling and no list of known keys
  (`Packer.AcceptedPassesIff`).
- `firmware/examples/heap_session.rs:264-265` calls the probe's answer the largest single block the arena can still
  serve. It is exactly when the largest hole can be reached a bit at a time and the arena is not wholly free with a
  power of two of words (`Probes.FoundIsLargestIff`): a hole refuses the request one word below it, and the whole
  capacity is never asked for, so a wholly free arena of 65,536 bytes reads 65,520.

One documented limit has its exact extent here too. `firmware/src/store.rs:409-415` says that what is not one triple
is refused until a reset: a second ceremony finished behind a refused persist brings a session there, and nothing else
does (`DurableRuns.WedgesIff`, `LastingRuns.WedgedIff`; `Counterexamples.RefusedThenWedged` is such a run).

## Reading the proofs

`Wire`, `Signers`, `ShareStores`, `NameStores`, `AbSlots`, `Screens`, `BackupPages`, `WordLists`, `RandomDraws`,
`Quizzes`, `Entries` are what the session is made of; `SessionSpec` and `Sessions` are the
session; `Steps`, `Consents`, `Traces`, `RevealTraces`, `QuizTraces`, `Replies`, `Writes`, `Runs`, `Ceremonies`,
`NameRuns`, `Durability`, `DurableRuns`, `LastingRuns`, `Counterexamples`, `Slots`, `Terms`, `SignerRuns`,
`KeptShares`, `Answers`, `Offers` build up to the run theorems, in that
order. `dafny verify dfyconfig.toml` checks everything. Nothing was executed.

## Model

| member | source | states |
|---|---|---|
| `Sessions.Session.Open` | firmware/src/lib.rs:842-893 | a boot holds exactly the replayed share record and no grant, no question, no seen page and no pending name |
| `Sessions.Session.Recv` | firmware/src/lib.rs:962-1076 | each coordinator message moves every field, the flash, the frames sent and the journal of effects exactly as the specification says, result included |
| `Sessions.Session.RecvCore` | firmware/src/lib.rs:1078-1285 | the group-size and address gates in front of the signer, then the signer's answer through the work queue |
| `Sessions.Session.Dispatch` | firmware/src/lib.rs:1270-1285 | the signer's answer, faults included, handed to the work queue with the signer's new state kept |
| `Sessions.Session.DropEverything` | firmware/src/lib.rs:1021-1055 | a cancel clears the pending name, reveal, question, entry, quiz, unfinished ceremonies and loaded backups, and nothing else |
| `Sessions.Session.ConfirmAt` | firmware/src/lib.rs:1323-1530 | a page that does not print the digit changes nothing and is refused; one that does buys what its own prompt asks for, with what its random words draw |
| `Sessions.Session.GrantReveal` | firmware/src/lib.rs:1409-1429 | a reveal that cannot be drawn grants nothing; one that can replaces the grant, clears the question and the seen pages |
| `Sessions.Session.GrantCheck` | firmware/src/lib.rs:1513-1521 | a quiz opens only over a share that decrypts and whose words are all known, and remembers whose share it is |
| `Sessions.Session.ShowBackup` | firmware/src/lib.rs:1567-1621 | a drawn page is marked seen and is the rendered page of the granted share; past the end the grant is spent and the question armed only when every page was seen; a failure drops the grant |
| `Sessions.Session.BackupRecorded` | firmware/src/lib.rs:1665-1671 | one question, one frame: refused when nothing was asked, spent before the frame goes out |
| `Sessions.Session.EntryKey` | firmware/src/lib.rs:1735-1790 | a key byte through the entry machine of a live entry; an entry finished or aborted is spent before anything is sent |
| `Sessions.Session.QuizKey` | firmware/src/lib.rs:1844-1888 | a key scored against the live quiz, with the candidates its random words draw; a pass or an abort spends it, and only a pass sends a frame |
| `Sessions.Session.CommitName` | firmware/src/lib.rs:1905-1912 | the pending name is spent whatever happens, reaches flash first, and is announced only if the write was accepted |
| `Sessions.Session.PersistStaged` | firmware/src/lib.rs:1945-1947 | every state the share cells pass through, in order, and what is left staged |
| `Sessions.Session.Run` | firmware/src/lib.rs:1940-1990 | persist first; only an accepted persist lets the queue reach the outbox |
| `Sessions.Session.Drained` | firmware/src/lib.rs:1948-1988 | the queue is worked front to back and stops at the first fault, keeping what was already sent |
| `Sessions.Session.Announce` | firmware/src/lib.rs:942-954 | the announce, then the name on flash or the request for one |
| `Steps.RunQuiet` | firmware/src/lib.rs:1940-1990 | with no name to commit, a run of the queue changes nothing but the share cells and the staged set; its frames come after all its writes and only from its own queue, and a refused persist leaves none |
| `Steps.RunCommits` | firmware/src/lib.rs:1940-1990 | a finished ceremony's run is the share's persist followed by the name's commit, and no commit at all when the persist is refused |
| `Steps.CommitFx` | firmware/src/lib.rs:1905-1912 | what a commit does outside memory: the name's writes, then its frame if they were accepted |
| `Steps.AnswersAreQuiet` | firmware/src/lib.rs:1960-1985 | no coordinator message but the finish of a pending ceremony makes the queue commit a name |
| `Consents.ExecMoves` | firmware/src/lib.rs:962-1912 | each of the calls moves the six consent fields as a small machine does that knows nothing of the signer, the flash or the outbox |
| `Traces.GrantStep` | firmware/src/lib.rs:1365-1528 | one step of one kind of grant: issued by its own prompt on an authorising page, ended by a cancel or its own flow's end, otherwise unchanged; no kind ever makes another live |
| `Traces.GrantsAreConsents` | firmware/src/lib.rs:1021-1055 | over every run with power cuts, a grant of a kind is live exactly when its consent was given and neither it nor a newer consent of its kind has ended it since |
| `Traces.OneConsent` | firmware/src/lib.rs:1409-1429 | a live grant goes back to one consent only |
| `Runs.RunsAreLawful` | firmware/src/lib.rs:842-1990 | every run of the session, restarts and cuts included, moves its consents lawfully |
| `Runs.RunGrantsAreConsents` | firmware/src/lib.rs:1021-1055 | in every reachable state of the session a reveal, entry, quiz or pending name is live if and only if it was consented to and not ended since, and a live reveal leaves no question outstanding |
| `Runs.DrawnIffConsented` | firmware/src/lib.rs:1567-1621 | over every run, a page of a share is drawn exactly by a request for that page while an unrevoked consent to that very share is live |
| `RevealTraces.SeenAreDrawn` | firmware/src/lib.rs:1583-1589 | the seen-page word of a live reveal holds exactly the pages drawn since its consent |
| `RevealTraces.SeenAllIffDrewAll` | firmware/src/lib.rs:1618-1618 | the word equals the full set exactly when every page was drawn since the consent |
| `RevealTraces.QuestionIsEarned` | firmware/src/lib.rs:1583-1618 | the question is outstanding if and only if some consent's pages were all drawn, its set then ended, and no cancel, newer reveal or answer has come since |
| `RevealTraces.EachAnswerItsOwnConsent` | firmware/src/lib.rs:1665-1671 | two answered questions go back to two consents, the later given after the earlier was answered |
| `Runs.RecordedIffEarned` | firmware/src/lib.rs:1665-1671 | over every run, the recorded frame is sent by exactly the steps that answer an earned question within a frame that encodes, and such a step does nothing else |
| `Runs.RecordedFramesHaveTheirOwnConsents` | firmware/src/lib.rs:1409-1671 | every two recorded frames have their own consents, the later one given after the earlier frame |
| `QuizTraces.PressStep` | firmware/src/quiz.rs:334-371 | a press counts exactly when it names the true word, changes neither words nor order, and passes on the eighth |
| `QuizTraces.CheckIsCounted` | firmware/src/lib.rs:1844-1888 | a live quiz belongs to its consent's share and has scored exactly the right answers given since |
| `QuizTraces.RightAnswerIsTheWord` | firmware/src/quiz.rs:418-425 | each counted answer named the word of the share at the position being asked |
| `QuizTraces.PassIsTheEighthRightAnswer` | firmware/src/quiz.rs:355-369 | a quiz passes exactly on the eighth right answer since its consent |
| `QuizTraces.PassAnswersEach` | firmware/src/quiz.rs:355-369 | a passed quiz was answered right at each of the eight positions its consent drew |
| `RandomDraws.Shuffle` | firmware/src/quiz.rs:464-472 | the shuffle in place is the one of the specification |
| `RandomDraws.ShuffledIsPermuted` | firmware/src/quiz.rs:464-472 | a shuffle neither adds nor loses anything, whatever the random words |
| `RandomDraws.OrderIs` | firmware/src/quiz.rs:442-456 | the order drawn is of different positions below 25, the last one always among them |
| `RandomDraws.DrawsIfAny` | firmware/src/quiz.rs:525-541 | a draw finds a word of the pool that is not taken exactly if there is one |
| `RandomDraws.OptionsAre` | firmware/src/quiz.rs:402-410 | the candidates are three different listed words with the true one among them, and there are none exactly if every word of the share is the true one |
| `Quizzes.NewQuizIff` | firmware/src/quiz.rs:288-305 | there is a quiz over a backup exactly when all its words are listed and not all the same, and it then has a question to ask |
| `Quizzes.AlwaysOptions` | firmware/src/quiz.rs:373-410 | every later question of such a quiz has candidates too: the give-up arm of asking is dead |
| `Quizzes.PressKeepsAsking` | firmware/src/quiz.rs:334-384 | a key ends a quiz only by cancelling or with the eighth right answer, and otherwise leaves it with a question to ask |
| `QuizTraces.EachPassItsOwnConsent` | firmware/src/lib.rs:1856-1880 | a pass spends its consent: any later live quiz was consented to later |
| `Runs.CheckedIffPassed` | firmware/src/lib.rs:1844-1888 | over every run, the checked frame for a share is sent exactly by the eighth right answer to a quiz consented to for that share; every other press during a quiz, right, wrong, dead or cancelling, sends and writes nothing |
| `Runs.CheckedAnswersEightPositions` | firmware/src/lib.rs:1844-1888 | over every run, a checked frame means its consent drew eight different positions, the last one among them, and the true word was named at each |
| `Runs.CheckedFramesHaveTheirOwnConsents` | firmware/src/lib.rs:1844-1888 | every two checked frames have their own consents, the later one given after the earlier frame |
| `Runs.CheckIsAsking` | firmware/src/quiz.rs:288-305 | in every reachable state of a device with a word list and whole backups, a live check has a question to ask, and three different listed candidates for it, the true one among them |
| `Runs.OnlyCancelGivesUp` | firmware/src/quiz.rs:373-384 | over every run of such a device, a key makes a check give up exactly if it is the cancel key |
| `Runs.EntryIsSound` | firmware/src/lib.rs:1735-1790 | in every reachable state what has been typed of a share is a sound state of the entry machine |
| `Replies.EveryEffectIsSourced` | firmware/src/lib.rs:962-1990 | every frame, flash write and drawn page of any call has its cause: an ack its own consent, a saved or consolidated reply its own request and share, a name its finished ceremony |
| `Writes.FlashIsWhatWasWritten` | firmware/src/lib.rs:1940-1990 | after any call, flash holds exactly what the call's recorded writes, replayed in order, leave |
| `AbSlots.CommittedIsReadableIffNoTornTie` | vendor/frostsnap/frostsnap_embedded/src/ab_write.rs:56-101 | an accepted write reads back its value, except exactly when the first copy is whole in slot B and the second tore in slot A with its index written: then the slot reads as damaged |
| `AbSlots.RefusedKeepsOldIffIndexUnwritten` | vendor/frostsnap/frostsnap_embedded/src/ab_write.rs:56-92 | a refused write leaves the old value exactly when its index was not yet programmed; otherwise the slot reads as damaged |
| `AbSlots.CutReadsOldDamagedOrNew` | vendor/frostsnap/frostsnap_embedded/src/ab_write.rs:56-134 | after a power cut at any point of a write the slot reads the old value, damage or the new value, and which one is decided by where the cut fell |
| `AbSlots.CompleteWrite` | vendor/frostsnap/frostsnap_embedded/src/ab_write.rs:56-92 | an undisturbed write leaves two equal copies one index on |
| `ShareStores.RecordFromExactlyATriple` | firmware/src/store.rs:518-552 | what is staged makes a record exactly when it is one whole keygen triple, and then that triple's record |
| `ShareStores.OnlyRestorationsAreDropped` | firmware/src/store.rs:447-453 | the persist drops restoration mutations and nothing else |
| `ShareStores.ShareStore.PersistStaged` | firmware/src/store.rs:447-463 | success drains the staged set, failure keeps all of it but the restorations, and the cells go through exactly the write's states |
| `ShareStores.StoredShareIsHeldAtBoot` | firmware/src/lib.rs:853-866 | a readable record replayed at boot holds exactly its share, with nothing staged |
| `Signers.TripleHolds` | vendor/frostsnap/frostsnap_core/src/device.rs:176-244 | a triple replayed in staging order leaves its share held under its key, whatever was there before |
| `Signers.SavingStagesTheTriple` | vendor/frostsnap/frostsnap_core/src/device.rs:526-542 | saving a complete share stages exactly the triple that a boot replays, and applies the same change |
| `Signers.WithoutItsKeyAShareIsDropped` | vendor/frostsnap/frostsnap_core/src/device.rs:190-235 | without the key mutation first, the other two change nothing |
| `Durability.AnswerMeansDurable` | firmware/src/lib.rs:1940-1990 | if a run with a triple staged has sent any frame, then a power cut right then, or at any later point of the call, boots holding that share and no other, unless the write was the torn tie, and then none |
| `Durability.OnlyWholeCeremoniesAreAnswered` | firmware/src/lib.rs:1940-1950 | a frame leaves the queue only with nothing staged or exactly one whole triple |
| `Durability.FailedPersistSaysNothing` | firmware/src/lib.rs:1921-1925 | a refused persist sends no frame and keeps the staged set |
| `LastingRuns.StepReads` | vendor/frostsnap/frostsnap_embedded/src/ab_write.rs:56-134 | what is readable changes only in a step that programs an index, which leaves its own share or damage, and which of them is decided by how far it got |
| `LastingRuns.StoredShareLastsIff` | firmware/src/lib.rs:853-866 | over every run, a readable share is what any later boot holds, and all it holds, if and only if no step since has programmed an index, or the last to do so wrote that share whole |
| `LastingRuns.AnsweredShareLastsIff` | firmware/src/lib.rs:1914-1947 | so it is for the share of every ceremony a run has answered, unless its write was the torn tie |
| `DurableRuns.FlashIsHeld` | firmware/src/lib.rs:842-1990 | in every reachable state, restarts included, the record readable on flash is held in memory unless its key is staged anew |
| `DurableRuns.ConsolidationAckIsDurable` | vendor/frostsnap/frostsnap_core/src/device/restoration.rs:410-440 | a frame sent for a consented consolidation means the typed share is the one a boot would hold, unless the torn tie |
| `DurableRuns.SecondCeremonyWedges` | firmware/src/store.rs:518-552 | a second ceremony finished behind a refused persist leaves more than a triple staged: nothing is sent or written |
| `DurableRuns.WedgesIff` | firmware/src/store.rs:518-552 | a call wedges a session that is not wedged if and only if it finishes a ceremony while something is staged |
| `LastingRuns.WedgedIff` | firmware/src/store.rs:405-415 | over every run, a session is wedged exactly when some call since the last boot finished a ceremony behind one still staged |
| `LastingRuns.StagedIffRefused` | firmware/src/store.rs:447-463 | over every run, something is staged between calls exactly when a ceremony was refused and has since been neither written nor lost to a power cut |
| `DurableRuns.WedgedStays` | firmware/src/lib.rs:1940-1947 | and no later call writes or answers anything through the queue until the power goes |
| `DurableRuns.KeygenAckPrecedesItsShare` | vendor/frostsnap/frostsnap_core/src/device/keygen.rs:289-345 | the keygen ack is sent after whatever was still staged is written, and a boot at any point after it holds what flash then keeps, of which its own share is no part |
| `DurableRuns.BootHoldsOnlyTheRecord` | firmware/src/lib.rs:853-866 | a boot holds a share if and only if it is the one on record |
| `DurableRuns.ReacknowledgedIsDurableIffOnRecord` | vendor/frostsnap/frostsnap_core/src/device/restoration.rs:121-205 | asked again to consolidate a share it holds, the session writes what was still staged and acknowledges from memory; a boot at any point after that holds the share if and only if it is the one flash then keeps |
| `DurableRuns.ReacknowledgedShareMayBeGone` | vendor/frostsnap/frostsnap_core/src/device/restoration.rs:180-205 | on any run of those three calls the acknowledged share is not what a boot holds |
| `Counterexamples.TornThenAcknowledged` | vendor/frostsnap/frostsnap_embedded/src/ab_write.rs:56-134 | from any blank flash a run of two consented consolidations exists whose last acknowledgement is for a share the next boot does not hold |
| `Counterexamples.ReplacedThenReacknowledged` | vendor/frostsnap/frostsnap_core/src/device/restoration.rs:180-205 | from any blank flash a run of three calls, with every write complete, exists whose last acknowledgement is for a share the next boot does not hold |
| `Counterexamples.RefusedThenWedged` | firmware/src/store.rs:518-552 | from any blank flash a run of two consolidations, the first refused, exists that leaves more than one triple staged |
| `Counterexamples.RefusedThenLost` | vendor/frostsnap/frostsnap_embedded/src/ab_write.rs:77-86 | from any blank flash a run of two calls exists in which a share is stored and acknowledged, and the second call, refused and silent, leaves the next boot holding nothing |
| `Ceremonies.PendingWasConfirmed` | vendor/frostsnap/frostsnap_core/src/device/keygen.rs:265-345 | a ceremony waiting to be finished was confirmed by a human and neither cancelled nor finished since |
| `Ceremonies.RunsPendLawfully` | vendor/frostsnap/frostsnap_core/src/device/keygen.rs:265-345 | every run of the session keeps that discipline |
| `NameRuns.NameIsWrittenWithConsent` | firmware/src/lib.rs:1905-1985 | over every run, a name reaches flash only as the latest preview, not cancelled since, in the finish of a ceremony a human confirmed |
| `NameRuns.SetNameIsOnFlash` | firmware/src/lib.rs:942-1912 | each name frame carries the name that flash holds at that moment, cut to 14 characters where it is announced, unless its commit was the torn tie; an announced name follows its announce |
| `NameRuns.CutsNothingIff` | firmware/src/lib.rs:942-954 | announcing cuts nothing exactly off a name of at most 14 characters |
| `NameRuns.EverySetNameIsOnFlash` | firmware/src/lib.rs:942-1912 | over every run on a flash that began with no longer name, a blank one among them, each name frame is exactly the name that loads at that moment, unless its commit tore |
| `NameRuns.ShortAt` | firmware/src/lib.rs:527-533 | on a flash that began with no name longer than 14 characters, a blank one among them, no state of any run has one |
| `Answers.NothingStagedAnswers` | firmware/src/lib.rs:1940-1975 | with nothing staged, an answer is exactly its own frame and its own prompts; with something staged, that is written first and its refusal silences the answer |
| `Answers.DisplayAsksForAReveal` | vendor/frostsnap/frostsnap_core/src/device/restoration.rs:203-262 | asked to display a share it holds, the session shows exactly one prompt, a reveal of that share under its key's name and with its ciphertext; of a share it does not hold it refuses |
| `Answers.CheckAsksForACheck` | vendor/frostsnap/frostsnap_core/src/device/restoration.rs:265-323 | asked to check one, it shows exactly one prompt, a check of that share; of a share it does not hold it refuses |
| `Answers.HeldSharesAreToldTrue` | vendor/frostsnap/frostsnap_core/src/device/restoration.rs:362-402 | the held shares it reports are exactly those it keeps encrypted and those typed in and saved |
| `Answers.EntryIsAskedFor` | vendor/frostsnap/frostsnap_core/src/device/restoration.rs:57-63 | an entry request shows its own entry prompt and nothing else |
| `Answers.SaveIsReported` | vendor/frostsnap/frostsnap_core/src/device/restoration.rs:64-120 | a save is shown and reported, in one frame, exactly if the share is still loaded |
| `Answers.ConsolidationIsAskedFor` | vendor/frostsnap/frostsnap_core/src/device/restoration.rs:121-201 | a consolidation is asked about for a typed-in share that proves to be the one named, acknowledged at once for one already kept, and refused otherwise |
| `Answers.SignatureIsAskedFor` | vendor/frostsnap/frostsnap_core/src/device.rs:313-373 | a signature is asked about exactly if the request is sound, its nonces are known and one of the parties is a share held |
| `Answers.NoncesAreSent` | firmware/src/lib.rs:1951-1975 | a nonce request is answered with all the segments its jobs yield, and with none where there is no job |
| `Answers.AddressIsShown` | firmware/src/lib.rs:2055-2079 | an address is shown exactly for a held bitcoin key, and refused otherwise |
| `Answers.BeginIsAnswered` | firmware/src/lib.rs:1078-1285 | a group over twelve or with a threshold it cannot meet is refused before the signer; any other is answered exactly if it lists this device |
| `Answers.CertifyIsAnswered` | vendor/frostsnap/frostsnap_core/src/device/keygen.rs:161-219 | a certificate is sent exactly for a ceremony begun whose inputs verify |
| `Answers.KeygenIsAskedAbout` | vendor/frostsnap/frostsnap_core/src/device/keygen.rs:222-265 | a check is asked about exactly for a ceremony certified whose certificate is whole, under the name and purpose it was begun with and with the certificate's own key, threshold and share |
| `Answers.FinishIsShown` | vendor/frostsnap/frostsnap_core/src/device/keygen.rs:268-287 | the end of a ceremony is shown, under its key's name, exactly if it was confirmed, its share stored and the pending name, where there is one, written and said |
| `Answers.NeverServed` | firmware/src/lib.rs:1056-1076 | upgrades, erases and identity challenges are refused and change nothing |
| `Answers.TakenQuietly` | firmware/src/lib.rs:985-1055 | previews, greetings, cancels and the retired prompt are always taken, and answered with nothing |
| `Answers.NoDigitNoEffect` | firmware/src/lib.rs:1353-1368 | a press where no digit is shown changes nothing, sends nothing and is refused |
| `Answers.ConsolidationIsReported` | vendor/frostsnap/frostsnap_core/src/device/restoration.rs:410-460 | a consented consolidation is reported in one frame once what it stages is stored, and not otherwise |
| `Answers.SignatureIsSent` | firmware/src/lib.rs:1377-1383 | a consented signature is sent in one frame if it can be made |
| `Answers.CheckIsAcknowledged` | vendor/frostsnap/frostsnap_core/src/device/keygen.rs:289-347 | a confirmed check is acknowledged in one frame by its ceremony and session hash |
| `Answers.TypedIsReported` | vendor/frostsnap/frostsnap_core/src/device/restoration.rs:337-360 | a share typed in is reported in one frame under the entry it was typed for |
| `Answers.ShownIsDrawn` | firmware/src/lib.rs:1567-1621 | a page is reported shown exactly if it was drawn; otherwise nothing is drawn and no reveal is left |
| `Answers.RecordedIsTaken` | firmware/src/lib.rs:1665-1671 | the answer is taken exactly if the question was asked and its frame goes out, and the question is gone either way |
| `Answers.EntryAnswersAsItsMachine` | firmware/src/lib.rs:1735-1790 | a key of a live entry is answered, and the entry kept, moved, dropped or spent, as the entry machine takes the key |
| `Answers.QuizAnswersAsItsQuiz` | firmware/src/lib.rs:1844-1888 | a check ends exactly when its key ends its quiz, and a pass is told exactly if its frame goes out |
| `SignerRuns.RemembersTheLast` | vendor/frostsnap/frostsnap_core/src/device/keygen.rs:106-347 | over every run, what the signer remembers of a ceremony begun, certified or confirmed, and of a share typed in or saved, is what the last step to touch it put there, until a step takes it away |
| `SignerRuns.AckedIffTold` | firmware/src/lib.rs:1001-1004 | over every run, the session counts as announced exactly if it was told so since its boot |
| `Offers.LoadedIffTyped` | firmware/src/lib.rs:1005-1022 | over every run, a typed-in share is at hand exactly if it was typed under a live entry and has since been neither cancelled, saved, kept whole nor cut off |
| `Offers.SavedReportWasTyped` | firmware/src/lib.rs:1005-1022 | over every run, a save is reported only of such a share: never one of a cancelled flow |
| `Offers.SavedWasTyped` | vendor/frostsnap/frostsnap_core/src/device/restoration.rs:83-118 | over every run, a saved share was saved while so at hand, and stays through cancels until it is kept whole or the power goes |
| `Offers.BegunIffLast` | vendor/frostsnap/frostsnap_core/src/device/keygen.rs:106-158 | over every run, a ceremony waits to be certified exactly if it was begun and not certified, cancelled or cut off since, under the name and purpose of its last begin |
| `Offers.CertificateWasBegun` | vendor/frostsnap/frostsnap_core/src/device/keygen.rs:161-219 | over every run, a certificate is sent only for a ceremony begun since the last cancel |
| `Offers.CertifiedWasBegun` | vendor/frostsnap/frostsnap_core/src/device/keygen.rs:161-219 | over every run, a certified ceremony has the name and purpose of the begin it was certified from, with no cancel since |
| `Offers.OfferGoesBack` | vendor/frostsnap/frostsnap_core/src/device/restoration.rs:51-333 | every prompt was put there by its own message, and names what that message and the held keys say |
| `Offers.DrawnWasAskedFor` | vendor/frostsnap/frostsnap_core/src/device/restoration.rs:203-262 | over every run whose human answers only what was asked, a drawn page is of a share the coordinator asked to display while it was held, consented to after that |
| `Offers.ConfirmedWasShown` | vendor/frostsnap/frostsnap_core/src/device/keygen.rs:161-265 | over every such run, a confirmed ceremony was begun under its name and purpose, certified from that begin, and shown with its certificate's key, threshold and share |
| `Offers.EveryShareGoesBack` | vendor/frostsnap/frostsnap_core/src/device/keygen.rs:106-347 | over every such run, every share kept is that of a ceremony so begun, certified, shown and confirmed, or one a human typed in |
| `Terms.SavingMoves` | vendor/frostsnap/frostsnap_core/src/device.rs:526-542 | saving a share holds it alone under its key, on its own name, purpose and threshold, queues its three mutations and drops its typed-in copies |
| `Terms.BootIs` | firmware/src/store.rs:328-370 | a boot knows exactly the record's key, with its name, purpose, threshold and share, and nothing else at all |
| `KeptShares.WaitsAsConfirmed` | vendor/frostsnap/frostsnap_core/src/device/keygen.rs:289-347 | over every run, a ceremony waits to be finished exactly if a human confirmed it and it was not confirmed anew, finished, cancelled or cut off since; and on the key, threshold, name, purpose, image and ciphertext of that very yes |
| `KeptShares.NewShareIsConsented` | vendor/frostsnap/frostsnap_core/src/device/keygen.rs:268-287 | over every run, a call adds a share exactly if it finishes such a ceremony or consents to a consolidation, and on the terms of that yes |
| `KeptShares.KeptAsConsented` | firmware/src/store.rs:447-463 | over every run, the share is then held on those terms, and either stored on them, its name cut to fifteen characters, or staged on them behind what a refusal left |
| `KeptShares.KeysMoveOnlySo` | vendor/frostsnap/frostsnap_core/src/device.rs:176-244 | no other call moves a key, and a cut leaves those of the record |
| `KeptShares.StagedWasConsented` | firmware/src/store.rs:447-463 | over every run, a staged triple is on the terms of an earlier yes |
| `KeptShares.RecordIsConsented` | firmware/src/store.rs:447-463 | over every run, what is readable on flash is what the run began with or is on the terms of an earlier yes |
| `KeptShares.BootIsConsented` | firmware/src/lib.rs:853-866 | and so is every key a boot of the run would know |
| `KeptShares.StoredTermsLast` | firmware/src/store.rs:328-370 | over every run, every later boot that holds a stored share has its purpose, its threshold and its name cut to fifteen characters, unless a human consented to keeping that same share again |
| `ShareStores.RefusedBecause` | firmware/src/store.rs:275-291 | a persist is refused exactly because what is staged is not one whole triple, and then nothing is written, or because its first copy could not be written |
| `Tagged.PartsInjective` | firmware/src/lib.rs:366-376 | length-prefixed parts can be read back in one way only |
| `Tagged.PreimageInjective` | firmware/src/lib.rs:366-376 | equal preimages have equal domains and equal parts, for domains of which neither begins the other |
| `Tagged.DerivationsNeverCollide` | firmware/src/lib.rs:378-416 | the share-key, nonce-seed and name-tag derivations share a preimage only for the same derivation of the same inputs |
| `NameStores.NameStore.Save` | firmware/src/lib.rs:622-640 | the cells go through exactly the write's states; an accepted save loads back unless the torn tie |
| `NameStores.NameStore.Load` | firmware/src/lib.rs:649-665 | the name of the readable record, or none |
| `NameStores.NameRoundTrip` | firmware/src/lib.rs:622-665 | every name of at most 56 bytes loads back as saved |
| `NameStores.NameOnlyFromCheckedRecord` | firmware/src/lib.rs:649-665 | any 72-byte record yields a name exactly when its tag matches, its length fits and the name's bytes are the ones it frames |
| `NameStores.DeviceNameFits` | firmware/src/lib.rs:529-533 | 14 characters never take more than 56 bytes |
| `NameStores.TornSaveIsNeverAnotherName` | firmware/src/lib.rs:541-548 | a save torn at any doubleword yields the saved name or none, save for a body whose own tag is all ones; one doubleword short, it yields the whole name exactly when the missing four tag bytes are all ones |
| `Outboxes.Outbox.Push` | firmware/src/lib.rs:475-496 | the bytes stay the concatenation of exactly the counted whole frames, and what a push adds and returns is known for every body |
| `Outboxes.Outbox.PushEach` | firmware/src/lib.rs:475-485 | segments are pushed one frame each, in order, to the first refusal |
| `Outboxes.Outbox.Encode` | firmware/src/lib.rs:497-507 | a frame goes in whole or not at all |
| `Outboxes.Outbox.Take` | firmware/src/lib.rs:455-459 | what is taken is the whole stream, and nothing stays behind |
| `Outboxes.NonceReplyIsSplit` | firmware/src/lib.rs:475-496 | k segments add the one-segment frames of a prefix of them, all of them exactly on success |
| `Outboxes.OtherBodiesAreWhole` | firmware/src/lib.rs:475-507 | any other body adds one frame on success and nothing on an error |
| `Outboxes.StreamIsUniquelyCut` | firmware/src/lib.rs:425-507 | a stream of self-delimiting frames is the stream of one sequence of bodies only |
| `Outboxes.TruncateDebug` | firmware/src/lib.rs:513-523 | the countdown ends at the cut of the specification, for every well-formed string |
| `Outboxes.DebugTextIsLongestPrefix` | firmware/src/lib.rs:513-523 | the cut is the longest well-formed prefix of at most 256 bytes, at most three bytes short of the limit, and a text that fits is untouched |
| `Utf8.BoundaryIffPrefixValid` | firmware/src/lib.rs:518-521 | a character boundary is exactly a place where the prefix is well formed (section 3 of RFC 3629) |
| `Utf8.BoundaryWithinThree` | firmware/src/lib.rs:518-521 | there is a boundary within three bytes below any place |
| `PageBits.MarkAdds` | firmware/src/lib.rs:2161-2163 | marking a page adds it to the set and nothing else; a page past the word adds nothing and aliases nothing |
| `PageBits.AllPagesDefined` | firmware/src/lib.rs:2173-2179 | the full set exists for 1 to 31 pages |
| `PageBits.CompleteIffEveryPage` | firmware/src/lib.rs:2173-2179 | the word equals the full set exactly when the pages seen are all the pages |
| `Screens.OnePageAuthorises` | firmware/src/lib.rs:2617-2760 | one page only of a transaction or a backup prompt authorises: the last of a transaction, the first of a backup prompt |
| `Screens.AuthorisesIff` | firmware/src/lib.rs:2617-2860 | which press authorises which prompt, in full: by kind, page, name length, index and threshold |
| `Screens.LastPageAuthorises` | firmware/src/lib.rs:2617-2700 | a transaction with pages has exactly one that authorises it, its last, and is drawn on exactly those pages |
| `Screens.ShareRowHoldsNineDigits` | firmware/src/lib.rs:2315-2358 | the reveal and quiz questions can be drawn exactly for names that fit a row and share indices of at most nine digits |
| `BackupPages.DrawnPages` | hal/src/ui.rs:1802-1912 | eight pages are drawn, and past them only page numbers large enough to wrap the offset arithmetic |
| `Glass.IndexReadsBack` | firmware/examples/stub.rs:678-686 | the index page reads back as its index and offers the next key, for every 32-bit index |
| `Glass.WordPageReadsBack` | firmware/examples/stub.rs:688-699 | a word page reads back as exactly its numbered words, whatever noise is behind it |
| `Glass.QuestionAdvertisesItsDigit` | firmware/examples/stub.rs:506-520 | the recorded question advertises the digit it was drawn with |
| `Stub.CopyWords` | firmware/examples/stub.rs:960-975 | the page report and the sheet both hold the words found, in order |
| `Stub.OnePage` | firmware/examples/stub.rs:922-990 | one page: drawn, read off the glass, copied and reported; or the end of the pages with the question armed |
| `Stub.DrawnPageReads` | firmware/examples/stub.rs:936-978 | reading any drawn page extends the sheet by exactly that page's content |
| `Stub.Walk` | firmware/examples/stub.rs:908-990 | from a fresh consent the walk ends under its cap, with the sheet and the reports of all eight pages and the question outstanding |
| `Stub.WholeSheet` | firmware/examples/stub.rs:566-572 | a whole walk has the index and all 25 words on paper, each under its own number, over whatever was there |
| `Stub.Answer` | firmware/examples/stub.rs:992-1016 | the digit read off the question is accepted, and one recorded frame goes out |
| `Stub.Reveal` | firmware/examples/stub.rs:908-1016 | the whole reveal against the session: a complete sheet, one report a page, exactly one recorded frame, no grant left |
| `QuizGlass.ReadKeyAnswersTruth` | firmware/examples/stub.rs:715-752 | every question of a quiz fits the glass, and from paper holding the word asked for, the key read off it is the one beside the true word |
| `StubQuiz.RightAnswerScores` | firmware/src/lib.rs:1844-1888 | a right answer asks the next question, or passes, spends the quiz and sends the one frame |
| `StubQuiz.OneQuestion` | firmware/examples/stub.rs:1033-1090 | one question: read, answered and scored against the session |
| `StubQuiz.CheckQuiz` | firmware/examples/stub.rs:1025-1091 | from a fresh quiz over the words on paper, whatever the random words, eight answers pass it with exactly one checked frame |
| `StubQuiz.RevealedSheetIsPaper` | firmware/examples/stub.rs:1551-1554 | what a reveal wrote down is paper enough for a quiz over the same share |
| `StubDrive.ConsentToReveal` | firmware/examples/stub.rs:1515-1551 | from any state, a yes to a reveal that can be drawn and its walk leave a complete sheet and exactly one recorded frame |
| `StubDrive.ConsentToCheck` | firmware/examples/stub.rs:1515-1560 | from any state, a yes to a check of a share whose words are listed and not all the same, and its quiz, answered from paper, pass with exactly one checked frame and leave the reveal as it was |
| `StubDrive.RevealThenCheck` | firmware/examples/stub.rs:1515-1560 | reveal then check of one such share, end to end and whatever the random words: the sheet copied off the glass passes the quiz, and the coordinator hears each page, the record and the check, once each and in that order |
| `WordLists.WordsWithPrefix` | vendor/frostsnap/frost_backup/src/bip39_words.rs:18-32 | one binary search and a walk find exactly the words the prefix begins, in list order, for any sorted list |
| `WordLists.ValidNextLetters` | vendor/frostsnap/frost_backup/src/bip39_words.rs:35-57 | the letters marked by the walk are exactly those that may follow, in alphabetical order |
| `WordLists.FollowingIs` | vendor/frostsnap/frost_backup/src/bip39_words.rs:35-57 | each letter some word goes on with is offered, once and in order, and no other |
| `WordLists.CutWordsOrderAlike` | vendor/frostsnap/frost_backup/src/bip39_words.rs:41-41 | comparing words cut to the prefix finds the same place as comparing them whole |
| `Entries.Entry.constructor` | firmware/src/wordentry.rs:301-314 | a fresh machine is on the index page with nothing typed, in a sound state |
| `Entries.Entry.Key` | firmware/src/wordentry.rs:339-349 | any key at any stage moves the machine as specified and keeps its state sound |
| `Entries.Entry.IndexKey` | firmware/src/wordentry.rs:357-391 | digits accumulate below 2^32, a delete drops one, and an accept needs an index |
| `Entries.Entry.WordKey` | firmware/src/wordentry.rs:395-446 | a key picks its letter, turns the page, deletes or accepts, or does nothing |
| `Entries.Entry.GoTo` | firmware/src/wordentry.rs:528-541 | the cursor moves onto a slot and the field holds what is in it |
| `Entries.Entry.Refresh` | firmware/src/wordentry.rs:548-554 | what is offered is recomputed from what is typed, on its first page |
| `Entries.Entry.Submit` | firmware/src/wordentry.rs:557-577 | 25 words are checked against the index; a failed check keeps them all |
| `Entries.KeysKeepSound` | firmware/src/wordentry.rs:339-577 | every key keeps every reachable state sound: what is typed begins a listed word, what is offered is exactly what may follow, the page exists, and every accepted word is listed |
| `Entries.NothingIsDiscarded` | firmware/src/wordentry.rs:339-577 | no key changes any slot but an accept, which fills the slot under the cursor |
| `Entries.OnlyWholeSharesAreSpelled` | firmware/src/wordentry.rs:557-577 | a share leaves the machine only as 25 listed words and an index whose checksum passes |
| `Entries.AcceptIsUnambiguous` | firmware/src/wordentry.rs:481-505 | an accept commits the typed word itself or the only word it begins |
| `Entries.NothingIsMissing` | firmware/src/wordentry.rs:557-566 | no slot is empty when a share is submitted: the arm for a missing word is dead |
| `Entries.NoDeadEnd` | firmware/src/wordentry.rs:395-505 | in every reachable state some letter can be typed or the word accepted |
| `EntryLaws.DeleteUndoesALetter` | firmware/src/wordentry.rs:395-446 | a delete right after a letter gives back the state before it, on its first page |
| `EntryLaws.DeleteGoesBackAWord` | firmware/src/wordentry.rs:419-428 | with an empty field a delete goes back one word and shows it, with every word and the index kept |
| `EntryLaws.DeleteGoesBackToTheIndex` | firmware/src/wordentry.rs:429-434 | with the first field empty a delete goes back to the index with every word kept |
| `EntryLaws.DeleteUndoesADigit` | firmware/src/wordentry.rs:357-391 | a delete right after a digit gives back the index page before it |
| `EntryLaws.DeleteReturnsToTheAccepted` | firmware/src/wordentry.rs:395-446 | after an accept into a fresh slot a delete comes back to the accepted word, spelled in full |
| `EntryLaws.AnyKeyAfterAFailure` | firmware/src/wordentry.rs:339-350 | after a failed check any key shows the last word, with all 25 kept |
| `EntryLaws.AcceptGoesOn` | firmware/src/wordentry.rs:436-446 | an accept goes on to the next word and shows what its slot has |
| `EntryLaws.IndexGoesOn` | firmware/src/wordentry.rs:380-383 | a non-zero index is accepted and the first slot shown |
| `EntryLaws.PagesTurnRound` | firmware/src/wordentry.rs:405-417 | the letters turn a page at a time and from the last to the first |
| `EntryLaws.AbortIff` | firmware/src/wordentry.rs:384-391 | the flow is given up exactly by a delete with nothing typed |
| `EntryLaws.RedrawnIffChanged` | firmware/src/wordentry.rs:202-216 | a key asks for a redraw exactly if it changed what is drawn |
| `EntryGlass.WholeWordIsAccepted` | firmware/src/wordentry.rs:481-505 | a whole listed word is what its accept commits, even where it begins longer ones |
| `EntryGlass.ReadKeyTypesTheWord` | firmware/examples/stub.rs:770-841 | from paper, the key read off the entry screen is the one that takes the word one press further, whatever the noise |
| `EntryGlass.FooterReadsBack` | hal/src/ui.rs:2492-2501 | the footer spells the accept key where a word can be accepted and the page key where there are pages |
| `StubEntry.NextDigit` | firmware/examples/stub.rs:854-862 | the digit pressed for the index is taken, and is the next of its decimal |
| `StubEntry.ZeroIsNotTyped` | firmware/examples/stub.rs:854-862 | for an index of zero the script presses a key that does nothing |
| `StubEntry.LetterOrPage` | firmware/src/wordentry.rs:395-475 | the key read off a word page types the next letter or turns one page nearer to it |
| `StubEntry.EachStepIsNearer` | firmware/examples/stub.rs:1100-1162 | every press of the script leaves the machine on a beginning of the share and nearer its end, or spells it |
| `StubEntry.NextKey` | firmware/examples/stub.rs:1111-1139 | on every screen of a share being typed, the script finds its next key |
| `StubEntry.PressKey` | firmware/src/lib.rs:1735-1790 | a redraw keeps the entry granted and sends nothing; a spelled share spends it, is loaded, and is reported once |
| `StubEntry.OneKey` | firmware/examples/stub.rs:1109-1161 | one press, read off the session's own screen and taken by it |
| `StubEntry.TypeBackup` | firmware/examples/stub.rs:1100-1162 | any listed share whose checksum passes is typed in at most 636 presses, well under the cap, loaded, and reported in exactly one frame |
| `StubDrive.ConsentToType` | firmware/examples/stub.rs:1515-1580 | from a yes to the entry prompt, with nothing unstored, the sheet's share is taken |
| `StubDrive.RevealThenType` | firmware/examples/stub.rs:1515-1580 | a share revealed on one device and typed back in on another, through screens and paper alone: the second takes exactly the share that was revealed and reports it once |
| `Firmware.UnpackInvertsPack` | tools/pack-signed.py:318-328 | a header written and read back is itself |
| `Firmware.PackInvertsUnpack` | tools/pack-signed.py:318-328 | 128 bytes read as a header and written again are the same bytes |
| `Firmware.HashedRangeIs` | firmware/src/lib.rs:3003-3040 | the digest input is the image below its declared length without the 64 signature bytes |
| `Firmware.HashedRangeCoversAllButSignature` | firmware/src/lib.rs:3003-3040 | two images have the same digest input if and only if they agree below the declared length everywhere but in the signature, whatever follows |
| `Checker.Check` | firmware/examples/checkfw.rs:242-436 | the findings reported, rule by rule and in order, for every image |
| `Checker.FirstRulesOnBytes` | firmware/examples/checkfw.rs:283-315 | R1 to R4 hold exactly of these header bytes: the magic, the first version byte, the first timestamp byte |
| `Checker.LengthRulesOnBytes` | firmware/examples/checkfw.rs:316-362 | R5, R6, R8, R9 and the digest gate hold exactly of these length bytes and file sizes |
| `Checker.LastRulesOnBytes` | firmware/examples/checkfw.rs:330-436 | R7, R10, R11 and R12 hold exactly of these key and version bytes |
| `Checker.EachRuleIsReported` | firmware/examples/checkfw.rs:242-436 | each of the twelve rules is reported once, in order, with its own verdict |
| `Packer.Covering` | tools/pack-signed.py:222-228 | the sections listed are exactly those reaching into the header slot |
| `Packer.CoversIffAByteIsInTheSlot` | tools/pack-signed.py:222-228 | and a section with bytes reaches in exactly when one of its bytes lies there |
| `Packer.PaddingIsLeast` | tools/pack-signed.py:262-275 | the padded body is the least multiple of the erase unit that holds it, and so is the whole image a multiple |
| `Packer.StampIsTheDate` | tools/pack-signed.py:120-126 | the stamp exists exactly when the two-digit year is below 40, and reads back as its own date exactly for 2000 to 2039 |
| `Packer.Verify` | tools/pack-signed.py:318-345 | the artifact checks succeed exactly when the image meets all of them |
| `Packer.DigestsTheSameSpans` | tools/pack-signed.py:346-353 | on an accepted image the firmware's digest is defined and hashes exactly the packer's two spans, 64 bytes short of the declared length |
| `Packer.AcceptedPassesIff` | firmware/examples/checkfw.rs:283-382 | an accepted image passes rules R1 to R11 exactly when its version also reads as one, it is under the ceiling and its key number is known |
| `Packer.AcceptedIsBuilt` | tools/pack-signed.py:277-345 | an accepted image is its vectors, filler, the requested header, its body and filler, byte for byte |
| `Packer.BuiltIsAccepted` | tools/pack-signed.py:277-345 | and every such image is accepted |
| `Packer.LetterLedVersionIsPackedAndRefused` | tools/pack-signed.py:162-166 | every dotted version led by a letter passes the packer's gate exactly if it has fewer than eight characters, and fails the checker's |
| `Packer.VersionAllowedIff` | tools/pack-signed.py:160-166 | the packer passes exactly versions of at most seven characters with no dotted major below 3 |
| `Packer.GatesDifferIff` | firmware/examples/checkfw.rs:365-375 | of the versions short enough, what passes the checker's gate passes the packer's, and the two differ exactly on dotted versions led by a byte above the digits |
| `DfuSe.LocateImage` | firmware/examples/checkfw.rs:195-240 | the walk finds what the recursive reading of the container finds, errors included |
| `DfuSe.FirstAtTheBaseIsFound` | firmware/examples/checkfw.rs:195-240 | for any list of elements, the data of the first at the flash base is found |
| `DfuSe.NoneAtTheBaseIsRefused` | firmware/examples/checkfw.rs:234-240 | with none at the base the file is refused, naming every address it has |
| `DfuSe.FoundIsInBounds` | firmware/examples/checkfw.rs:195-240 | on arbitrary container bytes, whatever is found lies inside the file under a header at the base, reached over whole elements laid end to end from byte 285 |
| `Singleton.TakeOnce.Take` | hal/src/singleton.rs:98-119 | called alone, one take succeeds unless the word already says taken, and the word then says taken |
| `Singleton.OneWinner` | hal/src/singleton.rs:98-119 | for any number of calls in any interleaving, from any word but taken: at most one wins, and once anything has returned one has |
| `Singleton.TakenStaysTaken` | hal/src/singleton.rs:98-119 | from a taken word none ever wins |
| `Singleton.AtMostThreeSteps` | hal/src/singleton.rs:98-119 | a call returns within three of its own atomic steps |
| `Singleton.AllDoneOneWonIffNotTaken` | hal/src/singleton.rs:98-119 | when all have returned, one has won exactly when the word was not taken |
| `Routes.Route.Alloc` | firmware/examples/heap_session.rs:290-296 | a block goes to the pool its switch and its fit choose, and the counters follow the arena only |
| `Routes.Route.Dealloc` | firmware/examples/heap_session.rs:299-305 | a block goes back to the pool it came from, whatever the switch says now |
| `Routes.Route.Realloc` | firmware/examples/heap_session.rs:307-320 | inside the arena both blocks are live at once, in both counters and their peaks; a refusal is counted, and a failure changes neither pool nor the live counters |
| `Routes.Route.ArenaAlloc` | firmware/examples/heap_session.rs:231-255 | served blocks are counted, refused ones fall back uncounted, the first refusal's size is kept |
| `Routes.Route.ArenaDealloc` | firmware/examples/heap_session.rs:257-262 | the counters lose exactly the block and never underflow |
| `Routes.Route.SetDev` | firmware/examples/heap_session.rs:325-339 | the switch's old value comes back, so spans nest |
| `Routes.HighestIsThePeak` | firmware/examples/heap_session.rs:187-193 | the peak every method keeps is the maximum of all readings ever taken |
| `Routes.ConsumedIsLeast` | firmware/examples/heap_session.rs:226-230 | what a request consumes is the least word multiple of at least two words that holds it |
| `Probes.LargestFit` | firmware/examples/heap_session.rs:266-285 | the probe returns exactly what the specification says of the arena's holes |
| `Probes.FoundIsLargestIff` | firmware/examples/heap_session.rs:264-285 | what it returns is the largest request that fits if and only if the largest hole has an even number of words or a hole one word smaller stands beside it, and the arena is not wholly free with a power of two of words |
| `Probes.FoundFits` | firmware/examples/heap_session.rs:266-285 | whatever it returns fits |
| `Probes.FitsAre` | firmware/examples/heap_session.rs:231-255 | every size up to the largest hole fits, but the one a word below it where no hole is of that size |
| `Probes.FreeReadsTwoWordsShort` | hal/src/heap.rs:143-144 | a wholly free arena of a power of two reads two words short of it |
| `Framebuffer.Decode` | tools/pixel-check.py:96-100 | every pixel of the decoded grid is its bit of its byte |
| `Framebuffer.DecodeInvertsVlsb` | tools/pixel-check.py:205-211 | every 128 by 64 grid survives encoding and decoding |
| `Framebuffer.VlsbInvertsDecode` | firmware/examples/simulator.rs:310-329 | every 1,024-byte frame survives decoding and encoding |
| `Art.Print` | firmware/examples/simulator.rs:170-188 | the art printed is its edges and one line for two pixel rows |
| `Art.Truth` | tools/pixel-check.py:133-141 | of a block the pattern found, the parser accepts exactly rows of half blocks that lie on the panel, however many and however long, and fills the grid with what they show and dark elsewhere |
| `Art.TruthInvertsArt` | tools/pixel-check.py:130-141 | for every frame, the parser reads back exactly the pixels printed |
| `Terminal.FrontEnd.ApplyKey` | firmware/examples/simulator.rs:1306-1376 | each key moves the cursor and the message as specified, quits only on q, and never leaves the range |
| `Terminal.FrontEnd.Loop` | firmware/examples/simulator.rs:1464-1480 | the loop prints what the specification plays, for any keys |
| `Terminal.ConfirmedOnlyAfterEveryPage` | firmware/examples/simulator.rs:1306-1376 | for any keys and any scenes with pages, a confirmation is reported only on a scene that is not refused and only after each of its pages was printed since it was last opened |
| `Terminal.BackUndoesForward` | firmware/examples/simulator.rs:1326-1340 | back undoes forward and forward undoes back, wherever there is a page to go to |
| `Terminal.EndsStay` | firmware/examples/simulator.rs:1326-1340 | at either end the page stays and the message says which |
| `Terminal.NumbersOpen` | firmware/examples/simulator.rs:1315-1325 | a scene's number opens it at its first page, and leaving it gives the menu back |
| `Terminal.ConfirmedIff` | firmware/examples/simulator.rs:1341-1357 | a key confirms exactly by being a yes on the last page of a scene not refused |
| `Terminal.ConfirmedIsFresh` | firmware/examples/simulator.rs:1464-1480 | a confirmation printed is of the key just typed, a yes to the last page printed just before |
| `Terminal.OtherKeysStay` | firmware/examples/simulator.rs:1306-1376 | any other key moves nothing and says so |

## Left out

- Cryptography: share decryption, proof checks, image matches, signatures and the R12 verdict arrive as fields of the message, as the device's decryption map, or as arguments; `hash` is an arbitrary function, so no claim rests on collision resistance and none is made about secrecy.
- Randomness and faults: the random words of a draw, confirm digits, noise cells, and where a flash write stops or is cut are inputs, so the theorems hold for all of them; a run is any whose draws some random words yield. That the digit is unguessable or the draws uniform is not stated.
- Flash: a fault stops a write at one of four points of each copy (before the erase, after it, after the index, complete). Bit rot, wear and a bincode layout of the share record are not modelled; its seal is the whole-or-damaged distinction.
- Nonces: nonce slots, their indices and their durability; a nonce job is its list of segments.
- Sessions.Session: holds the state of the entry machine and of the quiz as values; `Entries.Entry` is the machine in place, verified against the same functions.
- Entries.Entry: the word list is a parameter of its shape (sorted, upper case, one to eight letters, every first letter but X), and the share checksum an arbitrary function of index and words.
- Refused messages: upgrade bodies, identity challenges and erase requests are their refusals; the upgrade transfer is absent.
- The signer: of the vendored signer, the keygen, restoration and signing steps that the session reaches, with tables for what they keep; Nostr keys and address derivation are the prompts they raise.
- Screens.PromptScreen: which page may be answered and whether it can be drawn. Which outputs and fees a transaction page shows is a page count.
- Outboxes.Outbox: the encoding of one frame is an arbitrary partial function, self-delimiting where that is said; `FRAME_LIMIT` is its failures.
- Stub.Reveal: what the wire reports carry is modelled, what standard error prints is not; leaving the program is a `Death` value. The double-height code screen, `approved`, `decline` and `write_chunked` are absent: a comparison of one key, and loops over output.
- StubDrive.RevealThenCheck: three arms of `drive`, with the answered prompts handed in; the `quiz=` and `typed=` reports and the other arms are absent.
- Packer.Verify: the checks of step 6 and of the arguments. Section listing, `objcopy`, `signit`, `dfu.py`, staleness and key files are processes and files.
- Checker.Check: the printed wording of a finding is its number and verdict. A key number other than 0 fails R12, as in the code.
- DfuSe.LocateImage: 32-bit overflow of the file offset cannot arise below the address space and is not modelled.
- Routes.Route: addresses and the two pools' answers are inputs under the allocator's contract; `USED_PEAK` and `PHASE` are absent, and counters do not wrap, which `LIVE` cannot before memory runs out.
- Probes.LargestFit: the hole list is not part of this repository; a hole is taken to serve a request it holds exactly or with two words to spare, as `linked_list_allocator` 0.10 places them, and a block given back to merge into the hole it came from.
- Singleton.OneWinner: steps are sequentially consistent; one word under compare-and-exchange needs no more.
- Terminal.FrontEnd: a scene is its page count and whether it was refused; end of input and `q` both end the loop; keys arrive trimmed.
- Art.Truth: takes a block the search pattern found; the pattern itself is absent.
- Framebuffer.Decode: the pixels of a glyph; the fonts, sockets, `push_bytes` and `relay` loops and the window front-end are absent.
- Alloc and entry code (`firmware/src/alloc.rs`, `firmware/src/entry.rs`), `tools/measure-flash.py` and the build files hold only short guards and wiring.
