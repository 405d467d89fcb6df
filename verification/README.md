# Nomiso: a verified model of its hardest parts

This project models, in Dafny, the parts of Nomiso in which most can go wrong, and proves what they
promise. `dafny verify dfyconfig.toml` checks everything.

| area | files | the question answered |
|---|---|---|
| JSON in model replies | `Texts`, `JsonScan`, `JsonText`, `JsonRecovery` | which array or object does the byte scanner find, and when is a printed JSON value recovered from prose or a fence |
| content-addressed store | `Paths`, `CasAddress`, `CasInstall`, `BlobStore`, `CasReads` | what is visible at an address under any interleaving of writers, kills and power losses, and what a read may return |
| verified relocation | `Relocate`, `Artifacts` | what a copy proves, and what the rebind loop may do to rows that others rebind too |
| durable job journal | `Dedup`, `Jobs`, `Journal`, `JournalSafety`, `JournalLeases`, `JournalIntents`, `JournalRuns`, `JournalRetries`, `JournalRecords`, `JobStore` | leases, fences, retries and deadlines over runs, what may become of each field of a record, pinned inputs, when two intents are one, and writes that commit with their intents |
| mined corpus graph | `RequirementIds`, `CorpusGraph`, `CorpusProbes` | is a scanned id the declared pattern, is an edge the declared relation, is `min_depth` the graph distance |
| fusion and validators | `Fusion`, `EmbedResponse`, `CodingPack` | does each loop compute its simple meaning, and what does its caller get from that |
| small text protocols | `Chars`, `Splitting`, `CitationAnswer`, `TextMatch`, `CitationScore`, `Scope` | print/parse round trips, hit and leak, and string prefixes against segment prefixes |

`Wrappers` holds `Option`, `Result` and the byte type; `Sorting` sorts by a total order.

## How the model is built

Code that changes things step by step keeps that form: the scanners, validators and aggregations are
methods with the loops of the source; the file store, the artifact table and the job store are classes
whose methods update their fields. Each is tied to a function or predicate that states its meaning without
the loop, and the lemmas are about that meaning.

Concurrency is a state machine. For the store, an action is one file-system call of one writer, a partial
write, a kill or a power loss (which may change every file that was not synced). For the journal, an
operation is split where the source splits it: it reads, remembers what it read, and later commits a guarded
update; other operations, foreground writes and the clock run in between (`JournalSafety`, `JournalLeases`,
`JournalRetries`).
`JobStore` runs the same operations one at a time on a store object. The source for the journal's steps is the
SurrealDB body together with the trait contract it implements.

What cannot be seen or is foreign is a parameter: the hash, `serde_json`'s parser, timestamp and category
parsers, Unicode's alphanumeric and lower-case tables, section headings and their tokens, I/O errors and the
doings of other actors.

## Where the code and its promise part

Each of these is a lemma below, with the exact condition where one was found.

- A stray quote before the JSON makes the scanner miss it; a container is found, whatever follows, exactly when the prose before it is idle (`StrayQuoteLosesJson`, `ContainerRecoveredIff`).
- A file store whose root has a `..`, or is relative and names anything but the working directory, returns locations its own `get` refuses or does not find; the default root is one (`PutsReadableIffWellRooted`, `DefaultRootIsUnreadable`).
- Without distinct temporary names an empty object can be served under another content's address (`ReusedTagServesTruncatedObject`).
- Retry delays: a backoff past the last timestamp collapses to no wait (`RecordedDueTimeIff`, `CollapsedBackoffDoesNotWait`), and a retry may be scheduled past the deadline, where it can only end, unless a claim had read the job before its failure landed (`LateRetryNeverRuns`, `LateRetryRunsWhenReadBefore`).
- A lease or a deadline past the last timestamp collapses like a backoff: the lease is none and the job is never run (`LandedLeaseIff`, `CollapsedLeaseIsNoLease`, `DeadlineIsAheadIff`, `CollapsedDeadlineNeverRuns`).
- The deadline is checked on pending rows only, so an expired lease is taken over past the deadline (`TakenPastDeadlineIff`, `AttemptStartsPastDeadline`).
- A job whose last lease runs out stays leased, keeps its dedup slot, and eight of them starve a claim scan (`LastLeaseIsNeverTakenOver`, `StarvedScanPersists`).
- Enqueueing a live intent again is refused once its inputs have moved (`ReenqueueIff`).
- The identity text of a job joins unescaped fields: a line break in a kind, or a line break or comma in an input id, makes one text of different intents; without those it tells them apart (`SameMaterialIff`, `IdWithCommaCollides`, `IdWithLineBreakCollides`). Through the kind, different intents become one job (`DifferentIntentsShareAKey`, `OtherIntentIsDeduplicated`); through ids they do not, since generated row keys hold neither character and the request is refused as a bad input (`OddIdsAreBadInputs`).
- A cancel or supersede writes back the history it had read: one that lands after a claim it had not seen erases the running attempt (`WithdrawalKeepsAttemptIff`, `CancelErasesAttempt`).
- Two equal intents in one write sink the write (`TwinIntentsSinkTheWrite`).
- The `find_ids` comment asks for `**ID —`; the code looks only at the `**` in front (`PositionsAreOccurrences`).
- The alternative of a bare `multi_hop` tag in the coding-pack validation never helps (`MultiHopScenariosSkip`).
- An unpunctuated sentence that begins with "Used" is dropped as a marker line; the texts that survive are exactly the faithful ones (`UnpunctuatedSentenceIsDropped`, `PrintedAnswerParsesIff`).
- A text without a letter or digit matches every fact, so such an answer scores a hit (`MatchWithoutCommonTextIff`, `WordlessAnswerPasses`).
- `fact_hit` does not ask that the asserted and the supported fact be one; which lists of facts make that harmless is `HitsAreGroundedIff`.

## Model

| member | source | states |
|---|---|---|
| `JsonScan.ExtractJsonSubstring` | crates/nomiso-memory/src/llm.rs:132-180 | The scanner returns exactly the slice that closes first, and nothing only when no slice closes; its loop proves that a start is known exactly while a bracket is open, so the early exit cannot be taken. |
| `JsonScan.FirstIsUnique` | crates/nomiso-memory/src/llm.rs:139-177 | At most one slice of a text closes first, so the result is determined. |
| `JsonScan.SliceEndsAreBoundaries` | crates/nomiso-memory/src/llm.rs:171-173 | In UTF-8 text both ends of any closing slice are character boundaries, so slicing never panics. |
| `JsonScan.BoundaryAfterAscii` | crates/nomiso-memory/src/llm.rs:171-173 | In UTF-8 text the position after an ASCII byte is a character boundary. |
| `JsonScan.ClosesIgnoresSuffix` | crates/nomiso-memory/src/llm.rs:139-177 | Whether a slice closes depends on nothing after it. |
| `JsonScan.ExtractedIffPrefixIdle` | crates/nomiso-memory/src/llm.rs:132-180 | A self-closed text between a prefix and any suffix is what the scanner finds if and only if the prefix leaves nothing open and closes no slice. |
| `JsonScan.SelfClosedIsFirst` | crates/nomiso-memory/src/llm.rs:132-180 | After an idle prefix a self-closed text is found, whatever follows. |
| `JsonScan.QuietProseIsIdle` | crates/nomiso-memory/src/llm.rs:132-180 | A prefix without a quote or an opening bracket is idle. |
| `JsonScan.StrayQuoteLosesJson` | crates/nomiso-memory/src/llm.rs:141-152 | One quote in front of an empty array hides it: the scanner finds nothing. |
| `JsonScan.MismatchStartsAfresh` | crates/nomiso-memory/src/llm.rs:158-171 | A bracket closed by the other kind yields nothing and the search goes on behind it: `[}[]` gives the second array. |
| `JsonText.NeutralValue` | crates/nomiso-memory/src/llm.rs:141-177 | Any printed JSON value (RFC 8259, sections 3 to 7), read outside strings at any depth, leaves the scanner's state as it was and never dips below that depth. |
| `JsonText.NeutralBody` | crates/nomiso-memory/src/llm.rs:141-177 | The same for the members or elements inside a container. |
| `JsonText.NeutralString` | crates/nomiso-memory/src/llm.rs:144-153 | A string with any escapes, quotes and brackets inside it leaves the scanner's state as it was. |
| `JsonText.ContainerIsSelfClosed` | crates/nomiso-memory/src/llm.rs:141-177 | Every printed array or object opens once and closes exactly at its last byte. |
| `JsonText.ContainerRecoveredIff` | crates/nomiso-memory/src/llm.rs:132-180 | Extraction completeness: for every prefix, every RFC 8259 array or object and every suffix, the scanner returns exactly the container if and only if the prefix is idle. |
| `JsonText.ContainerRecoveredFromProse` | crates/nomiso-memory/src/llm.rs:132-180 | For every prefix free of quotes and opening brackets the slice returned is the container's text. |
| `JsonRecovery.ParseJsonFromModel` | crates/nomiso-memory/src/llm.rs:73-103 | The cascade returns the parse of the whole trimmed reply, else of the fenced block, else of the first closed slice, else an error. |
| `JsonRecovery.ParseWriterOpsFromModel` | crates/nomiso-memory/src/llm.rs:105-113 | A list of operations where one is recovered, else one bare operation as a list of one, else the first error. |
| `JsonRecovery.RecoveredFromTheReply` | crates/nomiso-memory/src/llm.rs:73-103 | Nothing is made up: a recovered value is the parse of a contiguous piece of the reply. |
| `JsonRecovery.RecoveredDirectly` | crates/nomiso-memory/src/llm.rs:73-82 | A container with blanks around it is recovered as itself. |
| `JsonRecovery.RecoveredFromProse` | crates/nomiso-memory/src/llm.rs:73-103 | A container in idle prose is recovered whenever the earlier stages parse nothing, even when a fence cuts through it. |
| `JsonRecovery.BareObjectBecomesOneOp` | crates/nomiso-memory/src/llm.rs:105-113 | When none of the three texts tried parses as a list, a bare object in idle prose becomes a list of one if and only if the earlier texts parse to the same operation or not at all. |
| `JsonRecovery.WholeReplyWins` | crates/nomiso-memory/src/llm.rs:73-82 | What parses whole is the answer, whatever fence or container it holds. |
| `JsonRecovery.ListRecoveredDirectly` | crates/nomiso-memory/src/llm.rs:105-113 | A bare list comes back whole, all its operations in it. |
| `JsonRecovery.ListRecoveredFromProse` | crates/nomiso-memory/src/llm.rs:105-113 | A list in idle prose comes back whole if and only if no earlier text parses as another list. |
| `JsonRecovery.ListRecoveredFromFence` | crates/nomiso-memory/src/llm.rs:105-113 | A fenced list comes back whole unless the whole reply parses as a list itself. |
| `JsonRecovery.NothingRecoveredIff` | crates/nomiso-memory/src/llm.rs:73-113 | An error is returned if and only if the reply is empty or none of the texts tried parses as a list or as one operation; the two cases are told apart. |
| `JsonRecovery.FencedBlockIsTheContainer` | crates/nomiso-memory/src/llm.rs:115-130 | From prose, a fence with a `json` tag, without one or with any other info line, a container, blanks and a closing fence, exactly the container comes back. |
| `JsonRecovery.RecoveredFromFence` | crates/nomiso-memory/src/llm.rs:84-89 | A container fenced in any of the three ways is recovered although the whole reply does not parse. |
| `JsonRecovery.TrimAroundContainer` | crates/nomiso-memory/src/llm.rs:74-75 | Trimming a reply shortens only the prose around a container and keeps idle prose idle. |
| `CasAddress.AddressOfFileLocation` | crates/nomiso-blob/src/relocate.rs:14-21 | The address expected of a file location is the digest it was made from. |
| `CasAddress.AddressIsTheTail` | crates/nomiso-blob/src/relocate.rs:14-21 | What stands between the last separator and any closing slashes is the address if it is one, and else there is none. |
| `CasAddress.AddressOfS3Location` | crates/nomiso-blob/src/lib.rs:357-367 | The key of an object location is the key it was made from, and its expected address is the digest. |
| `CasAddress.KeyParts` | crates/nomiso-blob/src/lib.rs:357-367 | The key of an object is its two shards and its digest under `blobs`. |
| `CasAddress.PathsAreInjective` | crates/nomiso-blob/src/lib.rs:103-107 | Different addresses have different object paths. |
| `CasAddress.TmpIsNoObject` | crates/nomiso-blob/src/lib.rs:161-166 | A temporary path is no object path. |
| `CasAddress.TmpsAreDistinct` | crates/nomiso-blob/src/lib.rs:161-166 | Temporary paths with different tags differ, whatever is written. |
| `CasInstall.StepKeepsInv` | crates/nomiso-blob/src/lib.rs:173-233 | Each call of any writer, a partial write, a kill and a power loss keep the invariant: whatever is visible at an address is complete, synced and hashes to it, and no object disappears. |
| `CasInstall.CallIsSound` | crates/nomiso-blob/src/lib.rs:173-205 | One call of a put, failing or not, keeps every object and disturbs no other writer. |
| `CasInstall.RenamePublishes` | crates/nomiso-blob/src/lib.rs:181-188 | The rename publishes a complete synced object and takes the temporary file away. |
| `CasInstall.CommitKeepsInv` | crates/nomiso-blob/src/lib.rs:173-233 | A sound effect of one writer keeps the invariant of all writers. |
| `CasInstall.RunKeepsInv` | crates/nomiso-blob/src/lib.rs:173-233 | Over every interleaving of any number of writers with distinct tags the invariant holds, objects stay, and finished writers keep their verdict. |
| `CasInstall.VisibleObjectsAreComplete` | crates/nomiso-blob/src/lib.rs:173-233 | After any run from an empty store, what is visible at an address hashes to it and is synced, and every put that returned success is served. |
| `CasInstall.SuccessIsPermanent` | crates/nomiso-blob/src/lib.rs:207-233 | A put that returned success has its object in every later state, through power losses too. |
| `CasInstall.TidyAfterSuccess` | crates/nomiso-blob/src/lib.rs:190-196 | After a success whose clean-up succeeded, the writer's temporary file is gone. |
| `CasInstall.CallOutcomeIff` | crates/nomiso-blob/src/lib.rs:173-233 | Exactly when one call ends in success, in an error or in cleaning up: it succeeds when it finds the object or renames, it fails when a check or the directory fails or nothing is found after a writing that failed. |
| `CasInstall.CallFiles` | crates/nomiso-blob/src/lib.rs:173-205 | What one call does to the files: a failed one nothing, creation an empty file, sync the data safe, rename the object in place of the temporary file, removal that file gone. |
| `CasInstall.FailedWritingSucceedsIff` | crates/nomiso-blob/src/lib.rs:190-196 | A put whose writing failed returns success exactly when its probe finds the object. |
| `CasInstall.UndisturbedPutStaysOnTrack` | crates/nomiso-blob/src/lib.rs:207-233 | A put that meets no failed call, kill or power loss never fails and never has to clean up, in any interleaving. |
| `CasInstall.UndisturbedPutSucceeds` | crates/nomiso-blob/src/lib.rs:207-233 | Such a put has returned success after at most seven calls and one for each byte. |
| `CasInstall.PutAgainTouchesNothing` | crates/nomiso-blob/src/lib.rs:208-220 | Bytes already in the store are put again successfully and without writing. |
| `CasInstall.ReusedTagServesTruncatedObject` | crates/nomiso-blob/src/lib.rs:161-166 | With one tag used twice a reachable state serves an object that does not hash to its address. |
| `BlobStore.FsBlobStore.Put` | crates/nomiso-blob/src/lib.rs:208-233 | Writes the bytes at the path of their hash unless it is taken, and returns the hash and its location. |
| `BlobStore.FsBlobStore.Get` | crates/nomiso-blob/src/lib.rs:235-260 | Reads a confined path and refuses bytes that do not hash to a content-addressed name. |
| `BlobStore.GetOfObject` | crates/nomiso-blob/src/lib.rs:118-260 | In a well-rooted store the location of a digest leads to its object's canonical path and the read is its verified content; and any location at all that reads successfully lies under the root and gives bytes that hash to a content-addressed name. |
| `BlobStore.ExistsIffFound` | crates/nomiso-blob/src/lib.rs:262-270 | `exists` is true of a digest's location exactly when a get of it would not say "not found", which is when the object is there. |
| `BlobStore.PutExistsForEver` | crates/nomiso-blob/src/lib.rs:207-270 | After a put its location exists in every store that has only gained files since. |
| `BlobStore.PutThenGet` | crates/nomiso-blob/src/lib.rs:207-260 | A put is read back at the returned location, unless the path already held something that does not hash to it, which is reported. |
| `BlobStore.PutsReadableIffWellRooted` | crates/nomiso-blob/src/lib.rs:99-157 | In every store made of puts, each returned location reads back bytes of the hash that was put if and only if the root has no `..` and is absolute or, like `.`, is made of `.` components alone and not empty. |
| `BlobStore.ConfinedToReadPath` | crates/nomiso-blob/src/lib.rs:118-157 | For every root: the location of an address is refused when the root has a `..`, not found when the root is empty, and otherwise looked for where the components of a relative root are applied twice; under a good root that is where the object lies. |
| `BlobStore.AbsoluteLocation` | crates/nomiso-blob/src/lib.rs:118-157 | The location of any file by its absolute path is accepted exactly when the file lies under the root, and refused as invalid and absent otherwise. |
| `BlobStore.BareLocation` | crates/nomiso-blob/src/lib.rs:118-123 | A location without the scheme is the same location. |
| `BlobStore.PlainFileIsServed` | crates/nomiso-blob/src/lib.rs:246-260 | A file whose name is no address is served as it is. |
| `BlobStore.FailedCallsChangeNothing` | crates/nomiso-blob/src/lib.rs:207-260 | An I/O error is reported and changes nothing. |
| `BlobStore.TmpLiesBesideObject` | crates/nomiso-blob/src/lib.rs:226-228 | The temporary file lies in the directory of its object. |
| `BlobStore.DefaultRootIsUnreadable` | crates/nomiso-memory/src/artifact.rs:26-34 | Under the root used when none is configured nothing that was put can be read back; under `.` everything can. |
| `CasReads.ReadsFindWholeObjects` | crates/nomiso-blob/src/lib.rs:173-260 | In every reachable state of interleaved writers, kills and power losses a read at an object's location finds nothing or bytes of that hash, never an integrity error. |
| `CasReads.SuccessIsReadable` | crates/nomiso-blob/src/lib.rs:207-260 | A put that returned success is readable at its location, with bytes of its hash, in every later state of every run. |
| `Relocate.RelocateObject` | crates/nomiso-blob/src/relocate.rs:56-95 | One copy: address of the location, verified read, put, read back, compare; it changes only the destination. |
| `Relocate.CopyIsProven` | crates/nomiso-blob/src/relocate.rs:56-95 | A successful copy names its source; source and destination then serve bytes of one and the same address, which both locations carry. A location without an address is refused and nothing is written. |
| `Relocate.ReadProvenIff` | crates/nomiso-blob/src/relocate.rs:60-75 | The source half succeeds if and only if the location names an address and reads as bytes of that address, and its error names what is missing. |
| `Relocate.CalmCopySucceedsIff` | crates/nomiso-blob/src/relocate.rs:56-95 | A calm copy into a good root succeeds if and only if the source half does and the place is free or holds the same content; its result and error are stated in full. |
| `Relocate.IntactObjectIsCopied` | crates/nomiso-blob/src/relocate.rs:56-95 | An intact object under a good root is copied to any good root with a free place. |
| `Relocate.FailedCallsAreReported` | crates/nomiso-blob/src/relocate.rs:76-95 | A copy whose put fails leaves the destination as it was; one whose read-back fails has stored its object. |
| `Relocate.RelocateMany` | crates/nomiso-blob/src/relocate.rs:99-119 | The loop's report and the destination are those of copying the inputs one after another, also when source and destination are one store. |
| `Relocate.BatchAccountsForEveryInput` | crates/nomiso-blob/src/relocate.rs:99-119 | Scanned equals the inputs and equals copied plus failed; the two lists are the inputs split by outcome, in input order, with the objects copied and the errors met. |
| `Relocate.CopyGrows` | crates/nomiso-blob/src/relocate.rs:56-95 | A copy with no one else writing only adds objects to the destination. |
| `Relocate.CopyAgain` | crates/nomiso-blob/src/relocate.rs:56-95 | Under every root: a copy that succeeded, made again over a grown destination, has the same outcome and writes nothing; so has any calm copy when only objects were added. |
| `Relocate.RerunIsStable` | crates/nomiso-blob/src/relocate.rs:99-119 | Under every root: running an undisturbed batch again gives the same outcomes, successes and failures alike, and leaves the destination as it was. |
| `Relocate.RerunKeepsCopies` | crates/nomiso-blob/src/relocate.rs:99-119 | Under every root: after a batch with I/O errors, a calm re-run repeats every copy already made and writes nothing for it. |
| `Artifacts.ArtifactTable.RebindLocation` | crates/nomiso-store/src/surreal_store.rs:3805-3830 | Rewrites a row if and only if it still holds the expected location, and says whether it did. |
| `Artifacts.RelocateArtifacts` | crates/nomiso-memory/src/artifact.rs:148-187 | The loop over a listing, with other actors' rebinds between its steps, source and destination being one store or two: report, destination and rows are those of the step-by-step meaning, and a store error ends the run. |
| `Artifacts.OneArtifact` | crates/nomiso-memory/src/artifact.rs:157-184 | One iteration: copy, let others act, rebind under the guard, count. |
| `Artifacts.Settle` | crates/nomiso-memory/src/artifact.rs:159-184 | The second half of one iteration: one counter and one outcome, and a row written only under the guard. |
| `Artifacts.EveryRowHasOneOutcome` | crates/nomiso-memory/src/artifact.rs:148-187 | Relocated plus guard-rejected plus failed equals scanned equals the number of outcomes, and outcome i is that of row i. |
| `Artifacts.RowsChangeOnlyWhenProven` | crates/nomiso-memory/src/artifact.rs:148-187 | Under any interference, step i changes a row only if it is row i of the listing and still holds the listed location; the new location then serves bytes of the same content address, and the outcome recorded says so. |
| `Artifacts.RowEndsWhereItShould` | crates/nomiso-memory/src/artifact.rs:148-187 | Each step's outcome is a failure exactly when its copy failed, with that error; otherwise the row ends at the copy's destination exactly when it was still listed there. |
| `Artifacts.AbortsIff` | crates/nomiso-memory/src/artifact.rs:148-187 | A run ends early exactly when the row of a proven copy meets a store error. |
| `Artifacts.OwnWritesKeepAddresses` | crates/nomiso-memory/src/artifact.rs:148-187 | The loop's own write never changes a row's content address. |
| `Artifacts.RunKeepsAddresses` | crates/nomiso-memory/src/artifact.rs:148-187 | Among actors that keep addresses, a whole run leaves every row with the address it started with. |
| `Artifacts.StoreArtifact` | crates/nomiso-memory/src/artifact.rs:42-76 | Bytes first, row second: on any error the rows are unchanged, and a row error names the stored object. |
| `Artifacts.StoringKeepsRowsReadable` | crates/nomiso-memory/src/artifact.rs:42-76 | Whichever of its two writes fails, and under every root, the rows it found stay readable; under a good root the row it registers reads too if and only if the place of its bytes was free or held the same content. |
| `Jobs.BackoffIsMonotone` | crates/nomiso-core/src/job.rs:118-124 | More attempts never wait less. |
| `Jobs.BackoffIsBounded` | crates/nomiso-core/src/job.rs:118-124 | The wait is between the base and 256 times it, constant from attempt 8, and saturates at the 64-bit maximum instead of overflowing. |
| `Jobs.BackoffDoubles` | crates/nomiso-core/src/job.rs:118-124 | The wait starts at the base and doubles with every attempt up to the eighth, saturating. |
| `Dedup.MaterialIgnoresInputOrder` | crates/nomiso-store/src/surreal_store.rs:6324-6360 | The identity text, in which the inputs are sorted and joined, is the same for any reordering of the inputs. |
| `Dedup.SameMaterialIff` | crates/nomiso-store/src/surreal_store.rs:6324-6360 | While kinds hold no line break and input ids neither line break nor comma, two requests print one identity text if and only if they have one scope, kind, composition and hint and the same bag of pinned inputs. |
| `Dedup.PinTextIsInjective` | crates/nomiso-store/src/surreal_store.rs:6330-6345 | The text of one pin tells its kind, id and revision, whatever the id holds. |
| `Dedup.NoRevisionIsZero` | crates/nomiso-store/src/surreal_store.rs:6330-6345 | An input without a revision counts as one pinned at revision 0. |
| `Dedup.KindWithLineBreakCollides` | crates/nomiso-store/src/surreal_store.rs:6324-6360 | For every request there is another, without inputs, whose kind holds line breaks and which prints the same identity text. |
| `Dedup.IdWithCommaCollides` | crates/nomiso-store/src/surreal_store.rs:6324-6360 | One input whose id holds a comma prints the same identity text as two inputs (a collision of the text alone). |
| `Dedup.IdWithLineBreakCollides` | crates/nomiso-store/src/surreal_store.rs:6324-6360 | One input whose id holds a line break prints the same identity text as another id with another composition and hint (a collision of the text alone). |
| `Jobs.SameDedupIff` | crates/nomiso-core/src/job.rs:264-288 | Valid requests with plain kinds and ids have one dedup key if and only if they are one intent. |
| `Jobs.DifferentIntentsShareAKey` | crates/nomiso-store/src/surreal_store.rs:6324-6360 | Two concrete valid requests, one with an input and one without, that have one dedup key. |
| `Jobs.CloseHistory` | crates/nomiso-store/src/surreal_store.rs:6388-6401 | Ending an attempt keeps the newest entries, at most the bound: the last one receives its end time and error if it was open, every other stays as it was. |
| `JournalSafety.StepKeepsInv` | crates/nomiso-core/src/store.rs:266-332 | Every step of enqueue, claim, renew, checkpoint, complete, fail, cancel, supersede, a write with intents, a foreground write or the clock keeps the journal sound and moves each job only forward. |
| `JournalSafety.CommitKeepsInv` | crates/nomiso-store/src/surreal_store.rs:5643-6060 | A guarded commit keeps the invariant however long ago its operation read. |
| `JournalSafety.UpdateIsSound` | crates/nomiso-store/src/surreal_store.rs:5643-6060 | A guarded update of a sound record gives a sound successor: identity fixed, fence not lower, attempts within the budget. |
| `JournalSafety.CommitJobsKeeps` | crates/nomiso-store/src/surreal_store.rs:5643-6060 | A commit keeps the jobs sound and the live key unique. |
| `JournalSafety.RunKeepsInv` | crates/nomiso-core/src/store.rs:266-332 | Over every run the invariant holds, fences never fall and terminal records are frozen. |
| `JournalSafety.SucceedsAtMostOnce` | crates/nomiso-core/src/store.rs:298-307 | A job that has succeeded is the same record, result and checkpoint included, in every later state. |
| `JournalSafety.ReachableJobsAreBounded` | crates/nomiso-core/src/job.rs:101-111 | In every reachable state attempts are within the budget, at most one non-terminal job holds a dedup key, and the unique slot identifies the job. |
| `JournalLeases.OnlyGuardedCommitsTouch` | crates/nomiso-core/src/store.rs:266-332 | Only a commit whose guard held on that very job changes an existing record. |
| `JournalLeases.FenceMovesOnlyAtClaims` | crates/nomiso-core/src/store.rs:274-284 | A fence changes exactly at claims, by one, with one more attempt, leaving the claimant as holder. |
| `JournalLeases.EffectLandsIffLeaseHeld` | crates/nomiso-core/src/store.rs:286-318 | A worker's effect lands if and only if it carries the current fence and owner of a leased job and, to complete, the inputs hold. |
| `JournalLeases.LostLeaseCommitsNothing` | crates/nomiso-core/src/error.rs:80-90 | Once a later claim raised the fence, no effect of an earlier lease changes anything in any continuation, and its caller is told so. |
| `JournalLeases.EndedJobAcceptsNothing` | crates/nomiso-core/src/store.rs:320-332 | After a job has ended, by cancel or supersede too, no commit changes it in any continuation. |
| `JournalLeases.SucceedsOnlyOnFreshInputs` | crates/nomiso-core/src/store.rs:298-307 | A job enters Succeeded only from its holder's completion in a state where every pinned input exists in its scope at its pin. |
| `JournalLeases.StaleCompletionLeavesLease` | crates/nomiso-core/src/store.rs:298-307 | A completion whose inputs moved is told so and leaves the job leased, everything unchanged. |
| `JournalRecords.LandsIff` | crates/nomiso-store/src/surreal_store.rs:5643-6060 | What each commit checks on the record it finds, written out for every operation, and that it lands exactly then. |
| `JournalRecords.CheckpointStep` | crates/nomiso-store/src/surreal_store.rs:5643-6060 | A job's checkpoint is written by a landed checkpoint and by nothing else: claims, retries, expiries and withdrawals keep it. |
| `JournalRecords.ProgressIsTheLastCheckpoint` | crates/nomiso-core/src/job.rs:202-205 | Over every run a job's progress is the body of its last landed checkpoint. |
| `JournalRecords.StateStep` | crates/nomiso-store/src/surreal_store.rs:5643-6060 | Where each landed commit takes the job. |
| `JournalRecords.OutcomeStep` | crates/nomiso-store/src/surreal_store.rs:5815-6060 | Result, error and replacement are written by completion, failure and superseding, and by nothing else. |
| `JournalRecords.EndStep` | crates/nomiso-store/src/surreal_store.rs:5643-6060 | The reason and the time a job ended, for every operation. |
| `JournalRecords.LeaseStep` | crates/nomiso-store/src/surreal_store.rs:5643-6060 | Owner, lease end and due time, for every operation. |
| `JournalRecords.HistoryStep` | crates/nomiso-store/src/surreal_store.rs:5643-6060 | A claim appends one open attempt with the job's new number and fence; what ends an attempt closes the history it had read; nothing else touches it. |
| `JournalRecords.NewJobIsTheRequest` | crates/nomiso-store/src/surreal_store.rs:5497-5584 | A new job carries the request's fields, pending and untried. |
| `JournalRecords.ShapeRefusedIff` | crates/nomiso-core/src/job.rs:400-433 | Exactly which requests are refused for their shape. |
| `JournalRecords.ResolvedIntentIs` | crates/nomiso-core/src/job.rs:264-288 | Resolving an intent fills in scope and self input and keeps the rest. |
| `JournalRecords.RepliesTellTheTruth` | crates/nomiso-core/src/store.rs:286-318 | A worker is told its effect's record exactly when it landed, a stale input exactly when a completion met one, and a lost lease otherwise. |
| `JournalRecords.ClaimTriesEveryRow` | crates/nomiso-store/src/surreal_store.rs:5643-5737 | A claim works through its scan row by row and ends with a lease or after the last one. |
| `JournalRecords.ReachableRecordsAreSound` | crates/nomiso-core/src/job.rs:175-223 | In every reachable world the fields of every record agree with its state; a leased job's last history entry is its running attempt. |
| `JournalRecords.WithdrawalKeepsAttemptIff` | crates/nomiso-store/src/surreal_store.rs:5962-6060 | Cancelling or superseding a running job keeps its attempt in the history if and only if the operation had read the job under the present lease. |
| `JournalRecords.CancelErasesAttempt` | crates/nomiso-store/src/surreal_store.rs:5962-6003 | A run from the empty journal in which a cancel erases the running attempt from the history. |
| `JournalRuns.ReachableIsSound` | crates/nomiso-core/src/store.rs:266-332 | Every world a legal run reaches from an empty journal meets the invariant, and nothing in flight has read a time ahead of the clock. |
| `JournalRuns.RunKeepsTimely` | crates/nomiso-core/src/store.rs:266-332 | Over every run creation times and read times stay behind the clock. |
| `JournalRetries.LandedFailureIsRetriedIff` | crates/nomiso-store/src/surreal_store.rs:5889-5960 | In every reachable world a landed failure leaves the job pending if and only if the error is retryable, attempts remain and the deadline was ahead when the record was read; it is then due at that time plus the backoff, and otherwise failed without a due time; its checkpoint and attempts stay. |
| `JournalRetries.RecordedDueTimeIff` | crates/nomiso-store/src/surreal_store.rs:6375-6386 | The due time a landed failure records is the backoff away if and only if the sum is still a timestamp (or the backoff is zero), and within the deadline if and only if the backoff fits before it or the sum collapses. |
| `JournalRetries.NoAttemptBeforeDue` | crates/nomiso-store/src/surreal_store.rs:5643-5737 | From a pending job due at t, in every continuation in which its fence has grown the clock had reached t. |
| `JournalRetries.NextAttemptWaitsTheBackoff` | crates/nomiso-core/src/store.rs:309-318 | After a landed failure that is retried, in every continuation the next attempt starts no earlier than the backoff after the failure was read, as long as that sum is a timestamp. |
| `JournalRetries.CollapsedBackoffDoesNotWait` | crates/nomiso-store/src/surreal_store.rs:6375-6386 | A run from the empty journal in which the second attempt starts at the very instant of the failure although the backoff is the 64-bit maximum. |
| `JournalRetries.LandedLeaseIff` | crates/nomiso-store/src/surreal_store.rs:5643-5737 | A landed claim leaves a lease of the full length if and only if its end is a timestamp; otherwise the job is due again at once. |
| `JournalRetries.NoTakeoverBeforeLeaseEnds` | crates/nomiso-core/src/store.rs:274-284 | While its holder rests, a leased job is taken over in no continuation before the clock has reached the end of the lease. |
| `JournalRetries.CollapsedLeaseIsNoLease` | crates/nomiso-store/src/surreal_store.rs:6375-6386 | A run from the empty journal in which a second worker takes a job at the instant of the first claim although the lease is the 64-bit maximum. |
| `JournalRetries.DeadlineIsAheadIff` | crates/nomiso-store/src/surreal_store.rs:6375-6386 | The deadline of a new job is the requested one if and only if that is a timestamp; only then, and when it is not zero, can a claim take the job, and otherwise every claim ends it. |
| `JournalRetries.CollapsedDeadlineNeverRuns` | crates/nomiso-store/src/surreal_store.rs:5643-5737 | A job accepted with a deadline past the last timestamp is attempted in no continuation. |
| `JournalRetries.TakenPastDeadlineIff` | crates/nomiso-store/src/surreal_store.rs:5643-5737 | A claim that finds a due job past its deadline starts an attempt on it if and only if it takes it over from an expired lease with attempts left; the new lease then ends past the deadline. |
| `JournalRetries.LandedClaimPastDeadline` | crates/nomiso-store/src/surreal_store.rs:5643-5737 | A claim that lands and was decided past the deadline had read a lease, never a pending row. |
| `JournalRetries.AttemptStartsPastDeadline` | crates/nomiso-store/src/surreal_store.rs:5643-5737 | A run from the empty journal that starts a second attempt at 20 on a job with deadline 15. |
| `JournalRetries.LateRetryNeverRuns` | crates/nomiso-store/src/surreal_store.rs:5643-5737 | A pending job that falls due at its deadline or later is never run in any continuation, only ended, unless a claim had already read the job under this fence. |
| `JournalRetries.LateRetryRunsWhenReadBefore` | crates/nomiso-store/src/surreal_store.rs:5643-5737 | A run from the empty journal in which such an earlier read lets the late retry start an attempt long past the deadline. |
| `JournalRetries.LastLeaseIsNeverTakenOver` | crates/nomiso-store/src/surreal_store.rs:5643-5737 | A job leased for its last attempt changes only by its holder's effects, a cancel or a supersede. |
| `JournalRetries.ExhaustedLeaseIsSkipped` | crates/nomiso-store/src/surreal_store.rs:5643-5737 | The claim loop skips such a row, which stays due for ever. |
| `JournalLeases.FindLiveIsTheHolder` | crates/nomiso-store/src/surreal_store.rs:1837-1853 | The live lookup of a key returns its one live holder. |
| `JournalLeases.ReenqueueIff` | crates/nomiso-store/src/surreal_store.rs:5497-5584 | Re-enqueueing a live intent changes nothing and returns that very job if and only if its inputs still hold. |
| `JournalLeases.FreshIntentIsCreated` | crates/nomiso-store/src/surreal_store.rs:5497-5584 | Without a live holder a valid request with good inputs becomes a new pending job and nothing else changes. |
| `JournalLeases.EnqueueTellsIntentsApartIff` | crates/nomiso-store/src/surreal_store.rs:5497-5584 | With plain kinds and ids an enqueue makes a new job if and only if no live job was made from the same intent, and otherwise returns that very job. |
| `JournalLeases.OtherIntentIsDeduplicated` | crates/nomiso-store/src/surreal_store.rs:5497-5584 | With line breaks in the kind a request is answered with the live job of a different intent. |
| `JournalLeases.OddIdsAreBadInputs` | crates/nomiso-store/src/surreal_store.rs:5497-5584 | Over row keys without line break and comma, as the store generates them, a request with such an id is refused as a bad input before its identity matters. |
| `JournalLeases.ReplayReturnsTheHolderIff` | crates/nomiso-store/src/surreal_store.rs:1853-1867 | The second query of an enqueue, made after any number of other steps, returns the job that took the slot exactly while it is live, and otherwise a live job of the same key and scope or the refusal. |
| `JournalIntents.InsertAllIff` | crates/nomiso-store/src/surreal_store.rs:6465-6530 | The inserts of one write succeed if and only if every one has good inputs, a free key and no twin; then exactly those jobs are added, pending. |
| `JournalIntents.WriteCommitsIff` | crates/nomiso-core/src/store.rs:71-89 | A put or supersede with intents commits rows and jobs together, if and only if the prior is open at the expected version, the key is free and all inserts can be made after the write. |
| `JournalIntents.SlotDedupsIffLive` | crates/nomiso-store/src/surreal_store.rs:1869-1900 | An intent of a write is deduplicated exactly when a live job holds its identity, and then to that job; otherwise it is to be inserted and no job holds its key. |
| `JournalIntents.WriteWithIntentsCommitsIff` | crates/nomiso-core/src/store.rs:71-89 | A write whose intents are resolved against the live jobs, and committed after any number of other steps, commits if and only if the prior is open, the key is free, and the intents that were not live have good inputs after the write, are still not live, and no two of them are one; one that was live never fails it, and its job is the outcome. |
| `JournalIntents.TwinIntentsSinkTheWrite` | crates/nomiso-store/src/surreal_store.rs:1873-1900 | Two new intents with one identity always abort their own write. |
| `JournalIntents.WriteLeavesRows` | crates/nomiso-store/src/surreal_store.rs:2386-2512 | What a committed write leaves of the rows: its own open at revision 1, the prior closed one version on, the rest as they were. |
| `JournalIntents.PriorClosesOnce` | crates/nomiso-store/src/surreal_store.rs:2476-2512 | After a supersede no other write over that prior commits on those rows. |
| `JournalIntents.SelfInputResolves` | crates/nomiso-core/src/job.rs:264-288 | The self input pinned at revision 1 holds in the state that same commit produces. |
| `JournalIntents.PinOnClosedPriorFails` | crates/nomiso-store/src/surreal_store.rs:2476-2512 | An intent pinned to the prior version that a supersede closes always aborts that supersede. |
| `JobStore.Store.EnqueueJob` | crates/nomiso-store/src/surreal_store.rs:5497-5584 | The insert in one transaction and, when its slot was taken, a second query in whatever state the others have left: an invalid request, a bad input and a live twin are told apart, and the journal stays sound. |
| `JobStore.Store.ClaimJob` | crates/nomiso-store/src/surreal_store.rs:5643-5737 | The loop over the scanned rows takes the first that can be taken, with progress, last error and history kept and a new attempt appended, ends those before it past their deadline, skips exhausted leases, and changes nothing else; the lease lies in the worker's grant. |
| `JobStore.Store.RenewJobLease` | crates/nomiso-store/src/surreal_store.rs:5739-5774 | Succeeds exactly for the holder of a leased job, moving the lease's end and nothing else. |
| `JobStore.Store.CheckpointJob` | crates/nomiso-store/src/surreal_store.rs:5776-5813 | Succeeds exactly for the holder, setting the checkpoint and nothing else. |
| `JobStore.Store.CompleteJob` | crates/nomiso-store/src/surreal_store.rs:5815-5887 | Succeeds exactly for the holder while every pinned input holds, with the whole new record stated; otherwise the error tells a stale input, a lost lease and a missing job apart and nothing changes. |
| `JobStore.Store.FailJob` | crates/nomiso-store/src/surreal_store.rs:5889-5960 | Succeeds exactly for the holder; the whole new record is stated: pending with its due time, or failed for the first reason that applies. |
| `JobStore.Store.CancelJob` | crates/nomiso-store/src/surreal_store.rs:5962-6003 | Cancels exactly a live job of the given scope, with the whole new record stated; the error tells the other cases apart. |
| `JobStore.Store.SupersedeJob` | crates/nomiso-store/src/surreal_store.rs:6005-6060 | Supersedes exactly a live job whose replacement exists in the same scope, with the whole new record stated; the error tells the other cases apart. |
| `JobStore.ClaimTakesTheFirst` | crates/nomiso-store/src/surreal_store.rs:5643-5737 | Without interference a claim takes the first scanned row that can be taken, with the next fence, one more attempt and a lease to the full length if that is a timestamp and to the present otherwise, ends the pending rows before it that are past their deadline, and touches nothing else; it returns nothing exactly when no row can be taken. |
| `JobStore.SkippedRowsYieldNothing` | crates/nomiso-store/src/surreal_store.rs:5643-5737 | A claim over rows that are all skipped yields no lease and changes nothing. |
| `JobStore.StarvedScanPersists` | crates/nomiso-store/src/surreal_store.rs:5643-5737 | When the eight oldest live jobs a worker may see are leased for their last attempt, then in every continuation in which no holder's effect, cancel or supersede lands on them, their scan stays the answer of the scan query and a claim returns nothing, whatever younger jobs are due. |
| `RequirementIds.FindIds` | crates/nomiso-eval/src/graph_expand_corpus.rs:241-289 | The index-juggling scanner terminates on every input and returns exactly the declared ids, in order, for both modes. |
| `RequirementIds.Scan` | crates/nomiso-eval/src/graph_expand_corpus.rs:241-289 | The same loop against an abstract meaning of the text. |
| `RequirementIds.ScanRun` | crates/nomiso-eval/src/graph_expand_corpus.rs:248-286 | One maximal run of capitals yields an id exactly when an id starts there. |
| `RequirementIds.PositionsAreOccurrences` | crates/nomiso-eval/src/graph_expand_corpus.rs:239-289 | The positions listed are exactly those where 2 to 5 capitals, a dash and 3 digits stand, not joined to an alphanumeric or dash on either side (and after `**` in definitions mode), increasing. |
| `RequirementIds.DefinitionsAreTheStarred` | crates/nomiso-eval/src/graph_expand_corpus.rs:239-289 | The definitions are exactly the subsequence of occurrences preceded by `**`. |
| `RequirementIds.RunIsIdIff` | crates/nomiso-eval/src/graph_expand_corpus.rs:256-284 | What the code checks around a run of capitals is the declared pattern, both ways. |
| `RequirementIds.LettersAreUnique` | crates/nomiso-eval/src/graph_expand_corpus.rs:239-289 | At most one id starts at a position. |
| `RequirementIds.StarredAre` | crates/nomiso-eval/src/graph_expand_corpus.rs:239-289 | A definition is an id right after two asterisks. |
| `RequirementIds.IdTextIs` | crates/nomiso-eval/src/graph_expand_corpus.rs:256-284 | The text of an id is its letters, the dash and the three digits. |
| `CorpusGraph.MineEdges` | crates/nomiso-eval/src/graph_expand_corpus.rs:167-237 | The list holds exactly the declared edges, each once, in the source's order: references to a first definition, links to a document's preamble, no loops. |
| `CorpusGraph.LinksComeFirst` | crates/nomiso-eval/src/graph_expand_corpus.rs:167-237 | Of one section's edges those from links come before those from references. |
| `CorpusGraph.DefinerIsFirst` | crates/nomiso-eval/src/graph_expand_corpus.rs:168-176 | The definer of an id is the first section that defines it, if any does. |
| `CorpusGraph.PreambleIsLast` | crates/nomiso-eval/src/graph_expand_corpus.rs:177-186 | The preamble of a document is the last section that is one. |
| `CorpusGraph.LinkIsFound` | crates/nomiso-eval/src/graph_expand_corpus.rs:201-223 | A link after plain text counts, and the search goes on behind it. |
| `CorpusGraph.TargetNamesItsStem` | crates/nomiso-eval/src/graph_expand_corpus.rs:201-223 | A link target names its document whatever path stands before and fragment behind. |
| `CorpusGraph.DefinitionTable` | crates/nomiso-eval/src/graph_expand_corpus.rs:168-176 | The first section that defines an id wins. |
| `CorpusGraph.PreambleTable` | crates/nomiso-eval/src/graph_expand_corpus.rs:177-186 | The preamble of each document, the last one winning. |
| `CorpusGraph.ReferenceEdges` | crates/nomiso-eval/src/graph_expand_corpus.rs:189-200 | The reference edges of one section. |
| `CorpusGraph.LinkEdges` | crates/nomiso-eval/src/graph_expand_corpus.rs:201-223 | The link edges of one section, found while shrinking the rest of its text. |
| `CorpusGraph.MinedEdgesJoinTwoSections` | crates/nomiso-eval/src/graph_expand_corpus.rs:167-237 | A mined edge is no loop and both ends are labels of the corpus. |
| `CorpusGraph.DistanceOne` | crates/nomiso-eval/src/graph_expand_corpus.rs:295-383 | Shortest distance one is having an edge and being another section. |
| `CorpusGraph.DistanceTwo` | crates/nomiso-eval/src/graph_expand_corpus.rs:295-383 | Shortest distance two is a two-edge walk to another section without a direct edge. |
| `CorpusProbes.CorpusProbes` | crates/nomiso-eval/src/graph_expand_corpus.rs:295-383 | One probe for exactly the sections that can be queried, in section order, with true labels: `min_depth` 1 or 2 gold is exactly the vocabulary-disjoint sections at that graph distance. |
| `CorpusProbes.ProbeSection` | crates/nomiso-eval/src/graph_expand_corpus.rs:307-380 | One section's probe exists exactly when it can be queried and its labels are true. |
| `CorpusProbes.DirectGold` | crates/nomiso-eval/src/graph_expand_corpus.rs:325-335 | Exactly the direct targets that share no significant token with the query, each as often as it is a target. |
| `CorpusProbes.SecondGold` | crates/nomiso-eval/src/graph_expand_corpus.rs:336-351 | Exactly the targets of direct targets that are neither the section nor direct nor share a token, each once. |
| `CorpusProbes.Adjacency` | crates/nomiso-eval/src/graph_expand_corpus.rs:300-305 | Each subject's list is its targets in edge order. |
| `CorpusProbes.TargetsAreEdges` | crates/nomiso-eval/src/graph_expand_corpus.rs:300-305 | A target is in the list exactly when the edge exists. |
| `CorpusProbes.TargetsJoin` | crates/nomiso-eval/src/graph_expand_corpus.rs:300-305 | Targets come in edge order. |
| `CorpusProbes.DisjointIff` | crates/nomiso-eval/src/graph_expand_corpus.rs:325-335 | A target is judged by the tokens of its own section's text, the last section with its label. |
| `CorpusProbes.QueriedJoin` | crates/nomiso-eval/src/graph_expand_corpus.rs:307-380 | Queried sections come in corpus order. |
| `CorpusProbes.GoldIsDisjointFromSeeds` | crates/nomiso-eval/src/graph_expand_corpus.rs:352-370 | Graph-only gold is never among the seeds. |
| `CorpusProbes.MinedGraphHasNoLoop` | crates/nomiso-eval/src/graph_expand_corpus.rs:167-237 | Mined edges meet what the probe labels need: no section points to itself. |
| `Fusion.RrfFuse` | crates/nomiso-core/src/fusion.rs:14-44 | The loops over lists, score map and order vector compute the sorted sums of reciprocal ranks. |
| `Fusion.AddList` | crates/nomiso-core/src/fusion.rs:22-33 | Adding one list keeps the table equal to the sums so far, in first-seen order. |
| `Fusion.SeenIsUnion` | crates/nomiso-core/src/fusion.rs:14-44 | First-seen order lists exactly the union of the inputs, once each. |
| `Fusion.SortDescRanks` | crates/nomiso-core/src/fusion.rs:35-43 | The stable sort keeps the entries, by falling score, ties in their original order. |
| `Fusion.FusedIsRankedUnion` | crates/nomiso-core/src/fusion.rs:14-44 | The output is exactly the union, once each, with its scores, non-increasing, ties first-seen first. |
| `Fusion.OneListScores` | crates/nomiso-core/src/fusion.rs:22-33 | Fusing one duplicate-free list gives the id at rank p + 1 a score whose product with k + p + 1 is one. |
| `Fusion.ScoresAdd` | crates/nomiso-core/src/fusion.rs:14-44 | Scores add up over lists. |
| `Fusion.EntriesAdd` | crates/nomiso-core/src/fusion.rs:14-44 | An entry scores the sum of its scores in the fusions of the two halves of the lists. |
| `Fusion.AheadScoresMore` | crates/nomiso-core/src/fusion.rs:14-44 | Over duplicate-free lists an id nowhere behind another scores at least as much, and more once it is listed. |
| `Fusion.ConsensusPrecedes` | crates/nomiso-core/src/fusion.rs:14-44 | Such an id comes before the other in the output. |
| `EmbedResponse.ValidateEmbedResponse` | crates/nomiso-embed/src/http_embed.rs:153-197 | Accepts exactly the responses with one finite vector of the dimension per position, puts each at its tag, otherwise reports the first complaint in order; the final "incomplete" error is never reported. |
| `EmbedResponse.Collect` | crates/nomiso-embed/src/http_embed.rs:192-196 | Succeeds exactly when every slot is filled, with the slots' vectors. |
| `EmbedResponse.FaultNamesTheFirstCheck` | crates/nomiso-embed/src/http_embed.rs:164-190 | Which fault of an item is named: the first of the five checks it fails. |
| `EmbedResponse.ComplaintIsTheFirst` | crates/nomiso-embed/src/http_embed.rs:164-190 | The complaint is the fault of the first item that has one. |
| `EmbedResponse.EveryPositionIsTagged` | crates/nomiso-embed/src/http_embed.rs:153-197 | Pigeonhole: distinct tags below the count cover every position. |
| `EmbedResponse.DistinctTagsCount` | crates/nomiso-embed/src/http_embed.rs:164-190 | Distinct tags are as many as the items. |
| `EmbedResponse.ReorderedIsAcceptable` | crates/nomiso-embed/src/http_embed.rs:153-197 | Any reordering of an acceptable response is acceptable. |
| `EmbedResponse.AcceptedResultIgnoresOrder` | crates/nomiso-embed/src/http_embed.rs:153-197 | An accepted result is the same under any reordering of the items. |
| `CodingPack.ValidateCodingPack` | crates/nomiso-eval/src/coding_agent.rs:171-322 | Accepts a pack if and only if it is well formed; otherwise the error is the first fault of the first scenario that does not fit, else the first required pattern without an exemplar, else the first probe key at fault. |
| `CodingPack.ErrorIsDetermined` | crates/nomiso-eval/src/coding_agent.rs:171-322 | Of the many faults a pack may have, exactly one error answers that description. |
| `CodingPack.ScenarioFaultNamesTheCheck` | crates/nomiso-eval/src/coding_agent.rs:179-207 | Which fault of a scenario is named. |
| `CodingPack.MemoryFaultNamesTheCheck` | crates/nomiso-eval/src/coding_agent.rs:208-233 | Which fault of a memory is named. |
| `CodingPack.ProbeFaultNamesTheCheck` | crates/nomiso-eval/src/coding_agent.rs:234-272 | Which fault of a probe is named. |
| `CodingPack.OpFaultNamesTheCheck` | crates/nomiso-eval/src/coding_agent.rs:342-382 | Which fault of a gold operation is named. |
| `CodingPack.WellFormedMeans` | crates/nomiso-eval/src/coding_agent.rs:171-322 | What a valid pack guarantees its users, written out. |
| `CodingPack.CheckScenario` | crates/nomiso-eval/src/coding_agent.rs:179-285 | The checks of one scenario pass exactly when it is in order and fits after the scenarios before it, and otherwise report its first fault. |
| `CodingPack.CheckMemories` | crates/nomiso-eval/src/coding_agent.rs:208-233 | The memory loop passes exactly when every memory is in order and no key repeats among the scenarios so far. |
| `CodingPack.CheckProbes` | crates/nomiso-eval/src/coding_agent.rs:234-272 | The probe loop passes exactly when every probe is in order and no name repeats among the scenarios so far. |
| `CodingPack.ValidateGoldOps` | crates/nomiso-eval/src/coding_agent.rs:342-382 | Passes exactly when no put has a prior, every supersede names a memory of its scenario, and every kind is known. |
| `CodingPack.CheckAllKeys` | crates/nomiso-eval/src/coding_agent.rs:295-320 | The last pass succeeds exactly when every probe key is a gold key and abstaining probes expect nothing. |
| `CodingPack.CheckProbeKeys` | crates/nomiso-eval/src/coding_agent.rs:297-318 | The same for one probe, reporting the first key at fault. |
| `CodingPack.CleanSnoc` | crates/nomiso-eval/src/coding_agent.rs:179-285 | A pack with one more scenario is clean exactly when it was clean before and the scenario fits. |
| `CodingPack.MisfitSpoils` | crates/nomiso-eval/src/coding_agent.rs:179-285 | A scenario that does not fit after the earlier ones makes the whole pack ill formed, whatever follows. |
| `CodingPack.CompileCodingPack` | crates/nomiso-eval/src/coding_agent.rs:155-168 | The suite holds the memories and probes of all scenarios, in order, and nothing else. |
| `CodingPack.CompiledKeysNameOneMemory` | crates/nomiso-eval/src/coding_agent.rs:155-168 | In a compiled valid pack every key a probe names belongs to exactly one memory. |
| `CodingPack.SupersedeStaysInScenario` | crates/nomiso-eval/src/coding_agent.rs:357-366 | The prior of a supersede names exactly one memory of the whole pack, and it is one of the same scenario. |
| `CodingPack.MultiHopScenariosSkip` | crates/nomiso-eval/src/coding_agent.rs:274-284 | Every multi-hop scenario of a valid pack has a probe that skips without a graph. |
| `CodingPack.EveryRequiredPatternTakesAScenario` | crates/nomiso-eval/src/coding_agent.rs:287-293 | A valid pack has at least as many scenarios as distinct required patterns. |
| `CodingPack.PackNeedsTwentyScenarios` | crates/nomiso-eval/src/coding_agent.rs:42-63 | Under the source's lists a valid pack has at least twenty scenarios. |
| `CitationAnswer.ParseCitationAnswer` | crates/nomiso-eval/src/h2h.rs:81-119 | The loop over lines computes the text outside the marker lines, the ids of the `USED` lines in order, and whether a line abstains. |
| `CitationAnswer.PrintedAnswerParsesIff` | crates/nomiso-eval/src/h2h.rs:68-119 | Printing a text and a list of ids and parsing gives both back, not abstaining, if and only if the text is trimmed and no line of it is a marker or ends in a carriage return. |
| `CitationAnswer.PrintedAnswer` | crates/nomiso-eval/src/h2h.rs:81-119 | What parsing a printed answer gives for any text at all: the printed ids come last. |
| `CitationAnswer.UsedLineParses` | crates/nomiso-eval/src/h2h.rs:88-107 | The printed line is a marker and gives back its ids, for ids over letters, digits, dash and underscore. |
| `CitationAnswer.BracketedLineParses` | crates/nomiso-eval/src/h2h.rs:65-107 | The colon, and the space, before a bracketed list may be missing. |
| `CitationAnswer.UnbracketedLineParses` | crates/nomiso-eval/src/h2h.rs:88-107 | Without brackets the ids after the colon are read the same. |
| `CitationAnswer.AbstentionParses` | crates/nomiso-eval/src/h2h.rs:81-119 | A closing `ABSTAIN` line makes any reply an abstention and leaves text and ids as they are; a faithful text comes back whole. |
| `CitationAnswer.BareAbstention` | crates/nomiso-eval/src/h2h.rs:81-119 | The reply `ABSTAIN` is an abstention without text or ids. |
| `CitationAnswer.FirstLine` | crates/nomiso-eval/src/h2h.rs:85-86 | A line ends at a line feed, with a carriage return before it or not. |
| `CitationAnswer.LinesOfPrinted` | crates/nomiso-eval/src/h2h.rs:85-86 | The lines of a printed answer are those of its text and the `USED` line. |
| `CitationAnswer.DeclaredIdsAreClean` | crates/nomiso-eval/src/h2h.rs:98-105 | Whatever the reply, a declared id is not empty and begins and ends with an id character. |
| `CitationAnswer.UnpunctuatedSentenceIsDropped` | crates/nomiso-eval/src/h2h.rs:65-78 | Any sentence of words after "Used " without punctuation is taken for a marker line. |
| `TextMatch.MatchIsSymmetric` | crates/nomiso-eval/src/h2h.rs:274-290 | Matching does not depend on which text is the gold. |
| `TextMatch.MatchesItself` | crates/nomiso-eval/src/h2h.rs:274-290 | Every text that is not empty matches itself. |
| `TextMatch.MatchWithoutCommonTextIff` | crates/nomiso-eval/src/h2h.rs:256-290 | Two texts match without a character in common if and only if one has an empty normal form. |
| `TextMatch.NormalFormIsEmptyIff` | crates/nomiso-eval/src/h2h.rs:256-269 | A normal form is empty if and only if the text has no letter or digit. |
| `TextMatch.CaseIsIgnored` | crates/nomiso-eval/src/h2h.rs:256-269 | Texts that differ only in case have one normal form. |
| `TextMatch.PunctuationIsSpace` | crates/nomiso-eval/src/h2h.rs:256-269 | Punctuation counts as a space. |
| `TextMatch.OverlapIff` | crates/nomiso-eval/src/h2h.rs:274-290 | When neither form contains the other they match exactly when the smaller set of long words finds at least as many in the other as it misses. |
| `TextMatch.LongWordsAre` | crates/nomiso-eval/src/h2h.rs:281-282 | Words of four bytes or more are long. |
| `CitationScore.FraudIsTheUnpresented` | crates/nomiso-eval/src/h2h.rs:319-325 | Each declared id that was not presented is reported as often as declared, and no other. |
| `CitationScore.PrintedAnswerFraud` | crates/nomiso-eval/src/h2h.rs:308-391 | Scoring a printed answer reports exactly the printed ids not presented, and a row that passes cites only presented blocks. |
| `CitationScore.HitOrLeak` | crates/nomiso-eval/src/h2h.rs:330-345 | Hit and leak exclude each other, together are the rows asserting gold outside abstain probes, and a hit has a supporting used block where a leak has none. |
| `CitationScore.HitIs` | crates/nomiso-eval/src/h2h.rs:308-345 | A hit needs an answer matched by some fact and a presented, used block matched by some fact, and nothing else of the row matters. |
| `CitationScore.HitsAreGroundedIff` | crates/nomiso-eval/src/h2h.rs:8-12 | For given gold facts, every hit over any evidence and answer is grounded in one fact if and only if, whenever facts match two texts, some one fact matches both. |
| `CitationScore.OneFactAgrees` | crates/nomiso-eval/src/h2h.rs:343-343 | A single fact meets that condition. |
| `CitationScore.TwoFactsDisagree` | crates/nomiso-eval/src/h2h.rs:274-290 | Two facts that do not match each other never meet it. |
| `CitationScore.WordlessAnswerPasses` | crates/nomiso-eval/src/h2h.rs:308-391 | An answer without a letter or digit is a hit and passes once it cites a supporting block. |
| `CitationScore.AbstainProbePassesIff` | crates/nomiso-eval/src/h2h.rs:345-366 | An abstain probe passes exactly when the answer abstains, asserts neither gold nor forbidden facts and cites only what was presented. |
| `CitationScore.GoldProbePassesIff` | crates/nomiso-eval/src/h2h.rs:345-366 | Another probe passes exactly when it cites only what was presented, breaches nothing, and hits if it has gold. |
| `CitationScore.BreachFailsTheRow` | crates/nomiso-eval/src/h2h.rs:336-342 | A forbidden fact asserted without gold is recorded and fails the row. |
| `CitationScore.RowCounts` | crates/nomiso-eval/src/h2h.rs:326-391 | Supported facts are counted once each, blocks and facts in full, and tokens as a quarter of the bytes with at most three lost a block. |
| `CitationScore.Aggregate` | crates/nomiso-eval/src/h2h.rs:876-905 | One entry for exactly the systems with a scored row, holding the totals of its rows, its token estimate and the median and 95th percentile of its search times. |
| `CitationScore.CountersCount` | crates/nomiso-eval/src/h2h.rs:876-905 | The counters for scored rows, hits, leaks and answer calls count exactly the system's scored rows of that kind. |
| `CitationScore.FaultCountersCount` | crates/nomiso-eval/src/h2h.rs:876-905 | So do those for abstentions kept and missed, fraud and forbidden facts. |
| `CitationScore.SumsSum` | crates/nomiso-eval/src/h2h.rs:876-905 | Blocks and tokens are sums over the same rows. |
| `CitationScore.RankTimes` | crates/nomiso-eval/src/h2h.rs:906-915 | The second loop gives every system the ranks of its sorted search times, and the bound on the second index never matters. |
| `CitationScore.RankedSplitsTheTimes` | crates/nomiso-eval/src/h2h.rs:906-915 | A rank k is one of the times, at least k + 1 of them are no longer and at least the other n - k no shorter. |
| `CitationScore.MedianHalves` | crates/nomiso-eval/src/h2h.rs:909-909 | More than half of the times are at or below the median and at least half at or above. |
| `CitationScore.PercentileSplits` | crates/nomiso-eval/src/h2h.rs:910-913 | More than 95 in a hundred of the times are at or below the 95th percentile and at least 5 at or above. |
| `CitationScore.MedianIsNoLonger` | crates/nomiso-eval/src/h2h.rs:906-915 | The median is no longer than the 95th percentile. |
| `CitationScore.EntryIgnoresRowOrder` | crates/nomiso-eval/src/h2h.rs:876-915 | A system's whole entry is the same in whatever order the rows are listed. |
| `CitationScore.ScoredRowsArePartitioned` | crates/nomiso-eval/src/h2h.rs:876-905 | Conservation: scored rows are hits, leaks, abstentions kept or missed, and silent rows, each counted once. |
| `CitationScore.SystemsShareTheRows` | crates/nomiso-eval/src/h2h.rs:876-905 | Over all systems the scored rows add up to the rows not skipped. |
| `Scope.ParsesIff` | crates/nomiso-core/src/scope.rs:30-63 | A scope is accepted if and only if, trimmed, it is at most 512 long and made of non-empty plain segments joined by slashes; it is returned trimmed. |
| `Scope.ErrorNamesTheFirstCheck` | crates/nomiso-core/src/scope.rs:30-63 | Which error a refused scope gets: the first of the six checks it fails. |
| `Scope.FaultIsTheFirst` | crates/nomiso-core/src/scope.rs:53-61 | The segment named in an error is the first that is not plain. |
| `Scope.PathParses` | crates/nomiso-core/src/scope.rs:30-63 | Every list of segments that is short enough prints to a scope that parses to itself, with those segments, whatever white space is around it. |
| `Scope.ParseIsIdempotent` | crates/nomiso-core/src/scope.rs:30-63 | Parsing a parsed scope changes nothing. |
| `Scope.NoEmptySegmentIff` | crates/nomiso-core/src/scope.rs:35-52 | The slash checks are exactly that no segment is empty, so the check inside the loop adds nothing. |
| `Scope.PrefixIsSegmentPrefix` | crates/nomiso-core/src/scope.rs:71-82 | On all texts a prefix match of the strings is a prefix of the segment lists. |
| `Scope.PrefixIsAPartialOrder` | crates/nomiso-core/src/scope.rs:71-82 | Prefix matching is reflexive, antisymmetric and transitive. |
| `Scope.MatchingQueriesAreComparable` | crates/nomiso-core/src/scope.rs:71-82 | Two queries that match one stored scope match one another one way round. |
| `Scope.ExactIsTheLeastMatch` | crates/nomiso-core/src/scope.rs:71-82 | An exact match is equality of segments and implies a prefix match. |

## Left out

- `serde_json` is an arbitrary partial function from texts to values; that it accepts RFC 8259 text is an assumption of the recovery lemmas, not a result.
- Replies of 2^31 bytes or more: the scanner's depth is a 32-bit counter.
- BLAKE3, SHA-256, HMAC and request signing: the content hash is any function into digests, and the dedup hash is taken as injective on its text, which is modelled; the composition is given as its canonical JSON text and record ids as their keys.
- File system: symbolic links, the existence of the root directory and directory fsync; a location that treats a file as a directory is reported as not found; rename is atomic and durable.
- The order in which `confine` reports its several I/O errors, and messages in general.
- S3 transport: only keys and locations are modelled.
- `FsBlobStore.Exists`: only files are modelled, so a directory under the root, which the source reports as existing, is not there.
- Journal: request bodies and payload limits, trimming of kinds, put receipts and idempotency keys, embeddings, the attempt loop around a conflicting transaction, claim request validation and the list and get operations.
- Counters and fences are unbounded; the source's are 32 and 64 bits wide.
- Section parsing, headings, slugs and tokens are a parameter of the probe lemmas, and probe names are not modelled.
- Fusion.RrfFuse: scores are reals, without rounding.
- EmbedResponse.ValidateEmbedResponse: a float is a real or not finite; the transport, cancellation and message texts are not modelled.
- CodingPack.ValidateCodingPack: error messages are reduced to their kind and the names in them; timestamps and categories parse by a parameter, and fields the validation does not read are omitted.
- CitationScore.Aggregate: search times are reals without not-a-number, and the counters are unbounded.
- CitationAnswer.PrintedAnswerParsesIff: alphanumeric characters are any set that agrees with ASCII and holds no white space.
- HTTP, MCP and CLI surfaces, live adapters, reports and fixtures, SurrealDB search and embedding activation: plumbing or foreign calls; keyword heuristics and enum parsing would only add easy members.
