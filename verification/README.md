# Ledger, manifest and graph models

Dafny models of the parts of this repository that hold real algorithms or a concurrent protocol, and
proofs of what they promise. Run `dafny verify dfyconfig.toml` to check everything.

- **Ledger protocol.** Several sessions share one `deferred-work.md`. `FileLock` is the lock file as a
  step system over atomic file operations, and `LockCalls` what a call, a release and a takeover do to
  it; `DeferredWorkLedger`, `DwReservation`, `ReplaceReservation` and `NextDwId` are the parser, the
  stubs, their replacement and the ID allocation, with `LedgerForms`, `ReservationForms` and
  `EntryBodies` for what the lines they look for are and where an entry ends; `SafeEdit` is the guarded
  edit. `LedgerRuns` puts reserve and replace calls, outside writers and the lock into one step
  system; `SharedIds` says when ids stay apart, `SerialRuns` which runs are calls made one after the
  other, and `ForeignWrites` what becomes of writes by those who take no lock.
- **Manifest re-pointing.** `SurfaceManifest`, `GroupMatching` and `SurfaceRegenerate`: the diff, the
  three-pass matching and the transformation; `ManifestDiffs`, `MatchingRules`, `RegenerateLaws` and
  `LineMoves` say what each of them comes to.
- **Graph search.** `ComponentGraph`, `RegionEdges` and `RegionHosts` for breadth-first search over
  components and the hosts derived from it; `ImportClosures` for the two worklist closures.
- **Globs.** `Covering` says what a wildcard pattern means; `TriggerGlobs` is the greedy matcher.
- **Source rewriting.** `InjectionPoints`: fresh import names, edits applied from the end; `InjectionLaws`:
  where the texts then stand.
- **Text with offsets.** `SectionRules`, `TextBlocks`, `Sentences` and `TradeoffHits`, with `SectionLaws`
  and `TradeoffLaws` for what they find; `UnifiedDiffs` and `DiffReaders` for the two readers of
  zero-context diffs.
- **Worker pool.** `WorkerPool`, `BenchArm` and `BenchLaws`: every schedule of the bounded pool and of
  the gauge around it.
- `Text`, `LineReader`, `StableSort` and `Counting` are shared: strings, readers that walk lines with a
  state, the language's sort, and counting.

Loops of the source are methods proved against a specification function; protocols are step systems in
which a trace reaches a state. Patterns, parsers and outside inputs are function parameters.

Where code and comments of the repository differ, the code is followed. Its comment on `withFileLock`
says that deleting a new owner's lock is avoided by releasing only a lock that is still one's own; the
read-back and the removal are two steps, and `FileLock.ReleaseWindowBound` states what that leaves.
The head comment of `safe-edit.ts` says that a concurrent writer between read and rename is detected;
the re-check and the rename are two steps, and `ForeignWrites.WriteIsUndone` is the write that is lost
between them.
The comments on fences speak of fenced code blocks in general; a backtick fence whose opening line has
more backticks after its run still opens here, as in the code.

## Model

| member | source | states |
|---|---|---|
| FileLock.ExclusionBound | scripts/lib/safe-edit.ts:160-252 | If a lock is judged stale only after its owner is gone, at most one process is ever inside `fn`, over every interleaving of create, write, read, judge, rename, compare, link-back, remove, crash and release, if and only if there are at most two processes; reading a lock and judging it are two steps |
| FileLock.ExclusiveForTwo | scripts/lib/safe-edit.ts:176-252 | Two contenders beside any number of crashed processes and whatever lock they left exclude each other, even when a takeover's rename moves a live lock |
| FileLock.ExclusiveWhenOnlyDeadRenamed | scripts/lib/safe-edit.ts:160-252 | Any number of processes exclude each other, whatever they judge stale, as long as no takeover's rename moves a live lock |
| FileLock.ThreeContendersBreak | scripts/lib/safe-edit.ts:176-201 | The run that breaks exclusion with three contenders: a third creates the lock between another's rename and link-back |
| FileLock.ReleaseWindowBound | scripts/lib/safe-edit.ts:239-252 | If only an owner still inside `fn` is protected from being judged stale, exclusion holds if and only if there is at most one process: the release reads the lock and removes it in two steps |
| FileLock.ReleaseWindowBreaks | scripts/lib/safe-edit.ts:245-251 | The two-process run behind that bound: a lock taken over between its owner's read-back and its removal |
| FileLock.OnlyDeadExcludes | scripts/lib/safe-edit.ts:160-252 | The any-number theorem as a property of a start state, for use in the ledger runs |
| FileLock.TwoContendersExclude | scripts/lib/safe-edit.ts:160-252 | The two-contender theorem in the same form |
| LockCalls.ReleaseFrees | scripts/lib/safe-edit.ts:239-252 | A holder whose lock is still at the path frees the path by finishing, reading back and removing, and is ready for a further call |
| LockCalls.LostLockIsLeft | scripts/lib/safe-edit.ts:245-251 | A holder that finds another lock or none when it reads back removes nothing |
| LockCalls.RemovesOnlyWhatItReadBack | scripts/lib/safe-edit.ts:239-252 | In every run and under any rule, a process about to remove a lock has read its own id back from the path while it was leaving |
| LockCalls.WhoRemoves | scripts/lib/safe-edit.ts:176-252 | No step takes a lock off the path but the release of one that has read back and the rename of one that has judged |
| LockCalls.ReleasedIsReusable | scripts/lib/safe-edit.ts:160-252 | After any run, a holder whose lock is still there releases it, and it or any idle process then runs a whole call to its end and leaves the path free again |
| LockCalls.WholeCall | scripts/lib/safe-edit.ts:160-252 | On a free path a call enters on a new lock of its own and leaves the path free |
| LockCalls.WaitsOrGivesUp | scripts/lib/safe-edit.ts:212-231 | A lock in the way and not judged stale is left as it is, whether the call polls again or gives up |
| LockCalls.TakesOver | scripts/lib/safe-edit.ts:176-231 | A written lock that is judged stale is taken over: the call gets inside on a lock of its own |
| LockCalls.OtherLockIsPutBack | scripts/lib/safe-edit.ts:186-199 | A takeover that moved another lock than the one judged puts it back, and all is as before |
| LockCalls.NewLockStays | scripts/lib/safe-edit.ts:176-199 | A lock created meanwhile stays, and a takeover that finds nothing to rename starts over |
| DeferredWorkLedger.FenceTracker.Classify | scripts/lib/deferred-work-ledger.ts:78-88 | The stateful tracker answers and moves as the fence functions say |
| DeferredWorkLedger.ClosesExactly | scripts/lib/deferred-work-ledger.ts:64-71 | A fence line closes a fence exactly when it has the same mark, a run at least as long and only white space behind it |
| DeferredWorkLedger.FencedBlockIsHidden | scripts/lib/deferred-work-ledger.ts:36-88 | From an opening run to the first line that closes it nothing is seen by the parsers, whatever stands between, and no fence is left open |
| DeferredWorkLedger.Compose | scripts/lib/deferred-work-ledger.ts:78-118 | The tracker composes: running it on two texts in turn is running it on their concatenation |
| DeferredWorkLedger.CollectLedgerLines | scripts/lib/deferred-work-ledger.ts:108-118 | The loop returns the non-fenced lines with their numbers, text and heading class |
| DeferredWorkLedger.NormalizeIsIdempotent | scripts/lib/deferred-work-ledger.ts:39-45 | Normalizing an ID twice is normalizing it once |
| DeferredWorkLedger.RawOrigin | scripts/lib/deferred-work-ledger.ts:108-118 | Each ledger line is one raw line met outside a fence; the ledger lines before and after it come from the raw text before and after it |
| DeferredWorkLedger.LedgerNumbered | scripts/lib/deferred-work-ledger.ts:108-118 | Line numbers ascend within the file, and a heading carries the number of its line |
| DeferredWorkLedger.CollectBody | scripts/lib/deferred-work-ledger.ts:135-175 | The inner loop, with its status flag, stops where the body ends and returns its lines |
| DeferredWorkLedger.CollectEntries | scripts/lib/deferred-work-ledger.ts:150-175 | The outer loop returns one entry per heading, in order |
| DeferredWorkLedger.CollectDwEntries | scripts/lib/deferred-work-ledger.ts:150-175 | Both loops together compute the entries of the content |
| DeferredWorkLedger.OneEntryPerHeading | scripts/lib/deferred-work-ledger.ts:150-175 | The entries are those of the non-fenced DW headings, one each, in order |
| DeferredWorkLedger.BodyIsItsRange | scripts/lib/deferred-work-ledger.ts:150-175 | A ledger line belongs to an entry's body exactly when its number lies in the entry's range, and no line in the range is a heading |
| DeferredWorkLedger.EntriesDisjoint | scripts/lib/deferred-work-ledger.ts:150-175 | The ranges of two entries are ordered and disjoint |
| EntryBodies.BodyExactly | scripts/lib/deferred-work-ledger.ts:135-175 | A body is the ledger lines below its heading up to the first that is a heading of any kind, or a `source_spec:` item with a line starting `status:` above it in the body, or to the end when there is none |
| LedgerForms.HeadingTextExactly | scripts/lib/deferred-work-ledger.ts:33-33 | A line is a heading of some kind exactly when it is one to six `#` and then the end, a blank or a tab |
| LedgerForms.FlatItemExactly | scripts/lib/deferred-work-ledger.ts:34-34 | A line is a flat item exactly when it is `-` or `*`, blanks or tabs, and `source_spec:` |
| LedgerForms.MarkerExactly | scripts/lib/deferred-work-ledger.ts:36-62 | A line is a fence marker exactly when it is at most three spaces and a run of three or more backticks or tildes, read with the length of the whole run |
| LedgerForms.HeadingIsRead | scripts/lib/deferred-work-ledger.ts:30-106 | What a DW heading is read as: level, the tidy part of its ID run, the normalized ID and the line |
| LedgerForms.HeadingForm | scripts/lib/deferred-work-ledger.ts:30-106 | Only lines of that form are DW headings |
| LedgerForms.IdTokenOf | scripts/lib/deferred-work-ledger.ts:49-53 | The ID in a run is the part it starts with that has no doubled and no trailing separator, up to what ends an ID |
| LedgerForms.IdTokenForm | scripts/lib/deferred-work-ledger.ts:49-53 | Every run is cut that way |
| LedgerForms.LeadingZeroGoes | scripts/lib/deferred-work-ledger.ts:39-45 | A zero in front of the digits of a segment makes no difference to the normalized ID |
| LedgerForms.CaseGoes | scripts/lib/deferred-work-ledger.ts:39-45 | Nor does the case of a letter |
| LedgerForms.NormalIdStays | scripts/lib/deferred-work-ledger.ts:39-45 | And nothing else does: an ID without capitals and superfluous zeros is its own normal form |
| DwReservation.StubRoundTrip | scripts/lib/dw-reservation.ts:31-71 | A written stub is read back with the ID, story and timestamp it was written with |
| DwReservation.StubIsHeading | scripts/lib/dw-reservation.ts:31-33 | A stub's heading line is a level-3 DW heading with the written number, already normalized |
| DwReservation.StubIsVisible | scripts/lib/dw-reservation.ts:31-71 | A stub's heading line is seen by the parser wherever no fence is open |
| ReservationForms.StubLineExactly | scripts/lib/dw-reservation.ts:24-60 | A line is a stub line exactly when it is a heading mark, `DW-` with ID characters, a colon or none, and the word `RESERVED`; the rest is what the story and the time are read from |
| ReservationForms.StubWordsExactly | scripts/lib/dw-reservation.ts:52-71 | The first word behind `RESERVED` is the story, the second the time, whatever white space stands around them |
| DwReservation.FindStubBlock | scripts/lib/dw-reservation.ts:79-87 | The block found is that of the first stub with the ID, up to its entry's end without trailing blank lines |
| DwReservation.SkipBlankTail | scripts/lib/dw-reservation.ts:85-85 | The loop on `end` drops exactly the trailing blank lines |
| DwReservation.CutAtStub | scripts/lib/dw-reservation.ts:79-87 | In a fence-closed ledger the block starts and ends outside fences, is fence-neutral, holds the stub's heading and no other, and no earlier stub has the ID |
| EntryBodies.WrittenStubBlock | scripts/lib/dw-reservation.ts:78-87 | The block of a written stub is its two lines, whatever stands above it outside a fence, also when the next line but blanks is another heading or a flat item |
| EntryBodies.ReservedBlock | scripts/lib/dw-reservation.ts:78-87 | Right after a reservation on a fence-closed ledger the block of each reserved ID is the two lines written for it, the heading with ID, story and time and `status: reserved` |
| EntryBodies.WrittenStubIsReplaced | scripts/lib/dw-reservation.ts:94-109 | Replacing a written stub puts the entry in the place of its two lines and leaves every other line, a flat item below it included |
| ReplaceReservation.FirstHeadingSurvives | scripts/lib/dw-reservation.ts:94-106 | Trimming the entry text keeps its first heading, checked before the lock is taken |
| ReservationForms.AcceptsExactly | scripts/lib/dw-reservation.ts:94-102 | An entry is taken exactly when its first line is a level-three DW heading whose ID normalizes to the wanted one |
| ReplaceReservation.ReplaceReservation | scripts/lib/dw-reservation.ts:94-109 | A replacement run alone: the entry check, the edit, and the ledger unchanged unless the edit is accepted |
| ReplaceReservation.ThreeParts | scripts/lib/deferred-work-ledger.ts:108-122 | Texts joined where no fence is open have the headings and stubs of the parts, moved down |
| ReplaceReservation.ReplaceKeepsIds | scripts/lib/dw-reservation.ts:94-109 | With a single-heading, fence-closed, non-stub entry the first stub for the ID is removed, the sequence of normalized IDs is kept, and every other heading is the same up to a line shift |
| ReplaceReservation.SameEditExactly | scripts/lib/dw-reservation.ts:78-107 | A replacement gives the same text on two ledgers exactly when they agree everywhere but in the stub's block, or, with the stubs on two lines, when the entry passes over the lines between them |
| ReplaceReservation.EntryFenceDecides | scripts/lib/dw-reservation.ts:103-107 | The IDs are kept if and only if the text below the stub reads the same under the fence the entry leaves open: always when it leaves none, and, when no line below closes it, only if no heading is below |
| ReplaceReservation.UnclosedEntry | scripts/lib/dw-reservation.ts:94-107 | An entry the check accepts that leaves a fence open: a heading line and a line of three backticks |
| NextDwId.ComputeMaxPlainId | scripts/next-dw-id.ts:48-55 | The loop computes the highest plain ID |
| NextDwId.MaxInIsMax | scripts/next-dw-id.ts:48-55 | The maximum bounds the number of every plain heading, and one of them reaches it |
| ReservationForms.PlainNumberExactly | scripts/next-dw-id.ts:51-53 | A normalized ID counts exactly when it is `dw-` and digits, with their number |
| NextDwId.MaxOverIsMax | scripts/next-dw-id.ts:145-157 | The maximum bounds every source, and a source reaches it |
| NextDwId.Allocate | scripts/next-dw-id.ts:145-157 | The loop returns that maximum and the source where it is first reached |
| NextDwId.AppendedLines | scripts/next-dw-id.ts:211-227 | The appended text adds whole lines below whatever ledger it lands on: a section heading if needed, then the stubs |
| NextDwId.AppendTextExactly | scripts/next-dw-id.ts:225-227 | Of the ledger version it was written for, the appended text shows whether it ends in a line break and whether it ends in the Reserved section, and nothing else |
| NextDwId.AppendReads | scripts/next-dw-id.ts:211-227 | What is appended is what the parser sees: the old headings and reservations followed by the stubs', if no fence is open at the end, and nothing of it otherwise |
| NextDwId.ReservationCounts | scripts/next-dw-id.ts:200-237 | A reservation raises the ledger's highest ID to its last one if and only if the ledger does not end inside an open fence |
| NextDwId.ReservationsDiffer | scripts/next-dw-id.ts:200-237 | Two reservations in a row get different IDs if and only if the ledger does not end inside an open fence; otherwise they get the same |
| NextDwId.OpenLedgerRepeatsIds | scripts/next-dw-id.ts:200-237 | A ledger of one fence line, on which two reservations in a row hand out the same IDs |
| NextDwId.ReservedIsFound | scripts/lib/dw-reservation.ts:78-109 | Each reserved ID has a stub block that a replacement finds if and only if the ledger did not end inside an open fence |
| NextDwId.EndsInSectionAfter | scripts/next-dw-id.ts:190-227 | After a reservation the ledger ends in the Reserved section, so the next one shares its heading |
| ReservationForms.EndsReservedExactly | scripts/next-dw-id.ts:190-193 | The section is there exactly when the last line that begins with `## ` is the Reserved heading but for white space |
| NextDwId.FirstFreeIsAbove | scripts/next-dw-id.ts:145-157 | The first ID reserved is above the number of every plain heading of the working tree and of every ref, and the ID just below it is taken unless it is the first of all |
| NextDwId.ReserveDwIds | scripts/next-dw-id.ts:174-237 | A reservation run alone: exactly which inputs are rejected and with which error, a missing ledger included, that a rejection writes nothing, the IDs returned and the text appended |
| NextDwId.ReplaceKeepsMax | scripts/lib/dw-reservation.ts:94-109 | A replacement whose entry leaves no fence open never lowers the ledger's highest ID and leaves the ledger fence-closed |
| SafeEdit.EditedExactly | scripts/lib/safe-edit.ts:39-58 | For any ratio an edit is accepted if and only if it did not throw, is not blank, and keeps at least the tolerated share of the bytes |
| SafeEdit.TextFile.SafeEditFile | scripts/lib/safe-edit.ts:64-105 | The file becomes the accepted edit, sound for the ratio the caller gives, or stays as it was |
| SafeEdit.TextFile.Append | scripts/lib/safe-edit.ts:108-116 | An append adds its text to what is there |
| LedgerRuns.IdsAreUnique | scripts/next-dw-id.ts:200-237 | In every run of reserve and replace calls by any number of sessions under an excluding lock, each reservation starts above every ID handed out before, and the ledger's highest ID stays at or above all of them |
| SharedIds.IdBound | scripts/lib/safe-edit.ts:160-252 | If a lock is judged stale only after its owner is gone, no ID is handed out twice in any run of `n` processes with tidy writers around them if and only if `n` is at most two |
| SharedIds.ThreeContendersShareAnId | scripts/next-dw-id.ts:200-237 | The run behind that bound, above any ledger that is not blank: three contenders, and two sessions are told the same ID |
| SerialRuns.RunsAreSerial | scripts/lib/safe-edit.ts:39-116 | However the steps interleave, the ledger is what the calls leave when run one after the other, each with the outcome it has alone, refusals included; others may write whenever they spare the running call: for a reservation how the ledger ends and the first ID, for a replacement about to be renamed everything but the stub's block |
| SerialRuns.LateWriteDecides | scripts/lib/safe-edit.ts:64-116 | When a call goes on to its append or rename after somebody else's write, the run stays serial if and only if the write spared it: not blank, same line break at the end, same Reserved section and same first free ID for a reservation; same lines around the stub's block and a sound result for a replacement |
| SerialRuns.VersionsAreSound | scripts/lib/safe-edit.ts:39-116 | Every version a call commits is not blank and not cut below the tolerated share of the version it replaces |
| ForeignWrites.ForeignWritesAreDetected | scripts/lib/safe-edit.ts:82-92 | A write by someone who takes no lock is detected: unless it falls between re-check and rename and touches more than the stub's block, no replacement undoes a change it has not seen |
| ForeignWrites.WriteBeforeRenameDecides | scripts/lib/safe-edit.ts:82-92 | A write between re-check and rename is not detected: the ledger becomes the replacement, which is one of the version it replaces if and only if the write touched nothing but the stub's block and the result is sound on it |
| ForeignWrites.HarmlessInTheWindow | scripts/lib/dw-reservation.ts:78-107 | Which writes in that window are harmless: none that leaves no stub; with the stub on its line, exactly those that keep the lines above and below its block and a sound result; with the stub on another line, none unless the entry's own first line already stands where the upper of the two stubs was |
| ForeignWrites.WriteIsUndone | scripts/lib/safe-edit.ts:64-105 | The losing run, from any ledger a call can replace on: what somebody else wrote between re-check and rename is gone, though the replacement would have been refused on it |
| ForeignWrites.SomeWriteIsUndone | scripts/lib/safe-edit.ts:64-105 | Such a run exists above every fence-closed ledger and for any number of processes |
| ForeignWrites.OvertakenByWrites | scripts/lib/safe-edit.ts:82-92 | In every run there are at least two foreign writes for each replacement refused because the file kept changing |
| ForeignWrites.TwoWritesRefuse | scripts/lib/safe-edit.ts:64-105 | Two writes are enough to refuse a replacement that every version of the ledger would have accepted |
| ForeignWrites.SomeCallGivesUp | scripts/lib/safe-edit.ts:64-105 | Such a run exists above every fence-closed ledger and for any number of processes |
| ForeignWrites.NeverBlank | scripts/lib/safe-edit.ts:39-116 | No reader sees a blank ledger at any step of any run, even where the lock fails to exclude |
| SerialRuns.TwoContendersAreSerial | scripts/lib/safe-edit.ts:39-252 | Runs of two contenders beside crashed processes are serial |
| SerialRuns.ManyProcessesAreSerial | scripts/lib/safe-edit.ts:39-252 | Runs of any number of processes are serial while no takeover moves a live lock |
| SurfaceManifest.EntryKeyInjective | scripts/lib/check-native-credential-surface.ts:22-24 | An entry key names one path, line and predicate, whatever characters the path has |
| SurfaceManifest.GroupKeyInjective | scripts/lib/native-credential-surface-regenerate.ts:50-52 | A group key names one path and predicate |
| SurfaceManifest.DiffManifestAgainstHits | scripts/lib/check-native-credential-surface.ts:32-63 | The two loops push the failures of the hits, then of the entries, a dead entry being looked at no further |
| SurfaceManifest.DiffFails | scripts/lib/check-native-credential-surface.ts:32-63 | A group has a failure exactly when one of its hits is unlisted or one of its entries is dead or unsound |
| SurfaceManifest.FailuresAreLocal | scripts/lib/check-native-credential-surface.ts:32-63 | Whether a group fails depends on that group's hits and entries alone |
| ManifestDiffs.DiffExactly | scripts/lib/check-native-credential-surface.ts:32-63 | The diff reports exactly these faults: a hit at whose path, line and predicate no entry is; an entry at no hit; and, of the entries at a hit, one without a criterion, one of none of the five classes, and a gate in a file that wires none |
| GroupMatching.FindUnclaimed | scripts/lib/native-credential-surface-regenerate.ts:117-119 | The search returns the first unclaimed hit that suits the entry |
| GroupMatching.ClaimMatch | scripts/lib/native-credential-surface-regenerate.ts:112-132 | A claim takes that hit and records the update, or changes nothing |
| GroupMatching.MatchGroup | scripts/lib/native-credential-surface-regenerate.ts:102-162 | The three passes compute the updates of the matching, in the order they are made |
| GroupMatching.PairUp | scripts/lib/native-credential-surface-regenerate.ts:145-160 | The ordinal fallback pairs what is left by position |
| GroupMatching.MatchingIsBijection | scripts/lib/native-credential-surface-regenerate.ts:102-162 | In a group of equal size every entry gets exactly one hit and every hit goes to exactly one entry |
| MatchingRules.MatchedByRules | scripts/lib/native-credential-surface-regenerate.ts:102-162 | First come claims of hits on the entry's own line, then claims of hits whose text is the entry's symbol, then pairs in order, flagged; each pass takes the entries in order and the first hit left that suits, and leaves no entry and hit that suit each other |
| MatchingRules.UpdatesTell | scripts/lib/native-credential-surface-regenerate.ts:102-162 | An update carries the index and symbol of its claim's entry, the line and text of its hit, and whether the pair is one by order |
| GroupMatching.NeverMoved | scripts/lib/native-credential-surface-regenerate.ts:134-137 | An entry whose line no earlier entry of its group has, and on which there is a hit, stays there |
| GroupMatching.IdentityMatching | scripts/lib/native-credential-surface-regenerate.ts:134-143 | If the entries can be sent one to one to hits on their own lines, all are matched by identity |
| StableSort.SortIsStable | scripts/lib/native-credential-surface-regenerate.ts:75-76 | Sorting keeps the items, orders them and keeps the order of ties |
| SurfaceRegenerate.HitsAre | scripts/lib/native-credential-surface-regenerate.ts:66-78 | A group's hits are the hits with its key, by ascending line |
| SurfaceRegenerate.GroupManifestEntries | scripts/lib/native-credential-surface-regenerate.ts:54-64 | The grouping loop keeps the keys in order of first appearance and each group in manifest order |
| SurfaceRegenerate.GroupHitsByKey | scripts/lib/native-credential-surface-regenerate.ts:66-78 | The same for hits, each list sorted |
| SurfaceRegenerate.MatchGroups | scripts/lib/native-credential-surface-regenerate.ts:264-287 | Groups of unequal size are counted and left, empty ones skipped, the others matched |
| SurfaceRegenerate.FindMispair | scripts/lib/native-credential-surface-regenerate.ts:215-230 | A group is doubtful exactly when it has two or more ordinal pairs and one joins a real symbol to another text |
| SurfaceRegenerate.KeepVerified | scripts/lib/native-credential-surface-regenerate.ts:289-301 | The clean groups are those without a failure in the diff against the candidate and without a doubtful pair |
| SurfaceRegenerate.ComputeChanges | scripts/lib/native-credential-surface-regenerate.ts:232-251 | The loop lists the updates that change a line |
| SurfaceRegenerate.CandidateHasNoGap | scripts/lib/native-credential-surface-regenerate.ts:289-301 | In a size-matched group the candidate has no unlisted hit and no dead entry, so the self-check can only object to an entry's own fields |
| SurfaceRegenerate.RegenerateManifest | scripts/lib/native-credential-surface-regenerate.ts:259-310 | The whole transformation computes the declared result: manifest, changes and unresolved count |
| RegenerateLaws.CleanExactly | scripts/lib/native-credential-surface-regenerate.ts:259-310 | A group is written if and only if it has as many entries as hits, every entry is sound by itself and no ordinal pair is doubtful |
| RegenerateLaws.OnlyCleanLinesChange | scripts/lib/native-credential-surface-regenerate.ts:165-174 | Order, length and every field but `line` are kept; outside clean groups nothing changes, inside every entry lands on a hit of its group |
| LineMoves.MovesAreJustified | scripts/lib/native-credential-surface-regenerate.ts:102-310 | An entry that gets another line lands on a hit of its group that bears its symbol, exactly or but for white space, unless its symbol stands for no text or it is the only entry of its group that neither line nor symbol placed |
| LineMoves.WrittenExactly | scripts/lib/native-credential-surface-regenerate.ts:203-301 | A group is written exactly when it has as many entries as hits, every entry has a criterion, one of the five classes and, as a gate, a file that wires it, and not two or more pairs by order with one that joins a real symbol to another text |
| LineMoves.UnresolvedExactly | scripts/lib/native-credential-surface-regenerate.ts:259-310 | The number reported is that of the groups not written, each counted once |
| RegenerateLaws.ChangesAreExact | scripts/lib/native-credential-surface-regenerate.ts:232-251 | The change list has exactly one item for every entry whose line the rewrite changed, each with both lines, group after group in the order of the clean groups |
| RegenerateLaws.RegenerateIsIdempotent | scripts/lib/native-credential-surface-regenerate.ts:259-310 | A second run on the result with the same hits returns the same manifest, no changes and the same unresolved count |
| RegionEdges.ComponentEdges.Of | scripts/lib/region-hosts.ts:40-51 | A file's edges, remembered; the cache always agrees with the imports |
| RegionEdges.ComponentEdges.Expand | scripts/lib/region-hosts.ts:59-63 | Expanding a file meets its imports one step further and keeps the search ordered by distance |
| RegionEdges.ComponentEdges.WalkBack | scripts/lib/region-hosts.ts:66-68 | The parent walk ends at the root and spells a chain of the target's distance |
| RegionEdges.ComponentEdges.Path | scripts/lib/region-hosts.ts:54-70 | Null exactly when the target is unreachable, otherwise a root-to-target chain of minimum length |
| RegionEdges.ComponentEdges.Reaches | scripts/lib/region-hosts.ts:72-81 | Exactly the reachable targets |
| RegionEdges.NoShorterChain | scripts/lib/region-hosts.ts:54-70 | When every file not looked at is at least as far as the target, no chain to it is shorter |
| RegionHosts.KeyNamesRoute | scripts/lib/region-hosts.ts:95-95 | A host key names one route component |
| RegionHosts.DeriveRegionHosts | scripts/lib/region-hosts.ts:87-105 | Each region file gets the sorted keys of the routes that host it |
| RegionHosts.HostsAreExact | scripts/lib/region-hosts.ts:87-105 | A route's key is listed exactly when the route is no error page, reaches the region and the region owns its path; the list is in code unit order |
| RegionHosts.HostsWrittenOut | scripts/lib/region-hosts.ts:87-105 | A route hosts a region exactly when it is a page or a layout, its component file reaches the region's, and no later region file has the same path; its key is its route, `#` and the kind |
| RegionHosts.HostChain | scripts/lib/region-hosts.ts:192-196 | The chain walk takes the first route with the key and finds a shortest chain exactly when that route reaches the region |
| RegionHosts.HostKeyHasChain | scripts/lib/region-hosts.ts:185-205 | Every derived host key leads to a chain, so its edges are checked |
| StableSort.CodeUnitsStrictWeak | scripts/lib/region-hosts.ts:19-22 | The code unit comparison is a strict weak order |
| ImportClosures.CollectClosure | scripts/lib/compile-source-subset.ts:64-79 | The files collected are exactly those reachable from the entry, each once, the entry first |
| ImportClosures.FindLicenseClosureProblems | scripts/check-composition-kit-boundary.ts:138-165 | The problems are exactly the faults of the packages reachable from the kit: every missing dependency, every package without a permissive licence, and nothing else; so there is none exactly when all they declare is installed and permissive |
| TriggerGlobs.SegmentMatches | scripts/lib/dw-trigger-hits.ts:99-122 | True exactly when each `*` can stand for some run of characters; terminates by a lexicographic measure |
| TriggerGlobs.GlobSegmentsMatch | scripts/lib/dw-trigger-hits.ts:124-135 | True exactly when each `**` can stand for some run of segments and every other item for one segment it matches |
| TriggerGlobs.CandidateMatches | scripts/lib/dw-trigger-hits.ts:142-150 | The branches of the candidate test, with the globs read declaratively |
| TriggerGlobs.PlainIsItsGlob | scripts/lib/dw-trigger-hits.ts:142-150 | A star-free candidate names the same files as its `/**` form if and only if it has several segments, no trailing slash and no extension |
| TriggerGlobs.PlainNamesExactly | scripts/lib/dw-trigger-hits.ts:142-150 | A star-free candidate names itself, and what is below it when it ends in a slash or when it has several parts and the last has no dot but perhaps its first character |
| TriggerGlobs.SlashDropsItself | scripts/lib/dw-trigger-hits.ts:142-150 | With a trailing slash it names the same files without its own path |
| TriggerGlobs.StarAbsorbs | scripts/lib/dw-trigger-hits.ts:99-122 | Why committing to the first place the literals fit is right: a later star absorbs what lies between |
| Covering.CoversFirst | scripts/lib/dw-trigger-hits.ts:99-135 | The meaning of a pattern as runs unfolds item by item |
| InjectionPoints.FreeImportName | apps/web/config/injection-plugins.ts:110-119 | The first suffix whose name is neither in the source nor taken; the search ends because names outgrow the source and the taken names are finitely many |
| InjectionPoints.SortedEditsWeave | apps/web/config/injection-plugins.ts:155-160 | Applying the edits by descending offset inserts every text at its original offset, all at once |
| InjectionPoints.DeletingRestores | apps/web/config/injection-plugins.ts:155-160 | Deleting the inserted texts gives the source back |
| InjectionPoints.ApplyInTurn | apps/web/config/injection-plugins.ts:156-159 | The loop applies the sorted edits one after the other |
| InjectionPoints.NameUses | apps/web/config/injection-plugins.ts:138-147 | Each use gets an identifier of its own, an import line from its point and an `entries` edit, unless one has no literal name; then the first such use is reported |
| InjectionPoints.RewriteInjectionPoints | apps/web/config/injection-plugins.ts:130-161 | When the file is left alone, when it is an error and about which use, and otherwise the output: all texts at their original offsets, under distinct names absent from the source |
| InjectionLaws.TagIsGivenEntries | apps/web/config/injection-plugins.ts:138-160 | In the output the tag name of each use without entries is followed at once by ` entries={`, its identifier and `}`; in front of the tag and behind its name the code is as it was but for the other insertions |
| InjectionLaws.ImportsStand | apps/web/config/injection-plugins.ts:148-160 | The import lines, one for each such use, stand at the start of the instance script's content, or in a script block of their own in front of everything when there is none |
| InjectionLaws.IncludesExactly | apps/web/config/injection-plugins.ts:110-131 | A text includes a part exactly when it is something, the part and something |
| SectionRules.CollectPlainLines | scripts/lib/section-ledger-rules.ts:45-49 | The lines outside fences, with their numbers |
| SectionRules.ExtractSections | scripts/lib/section-ledger-rules.ts:40-65 | The loop returns the declared sections: each from an accepted level 2-4 heading that no earlier section reaches, to the next heading of equal or higher rank |
| SectionRules.SectionsDisjoint | scripts/lib/section-ledger-rules.ts:40-65 | Of the sections of a file, every line of one has a smaller number than every line of a later one |
| SectionLaws.SectionsExactly | scripts/lib/section-ledger-rules.ts:29-65 | Each section starts at a scanned heading of level two to four and holds the lines up to the next heading of its level or above, or the end; sections follow one another, and outside them no heading could open one |
| SectionLaws.PlainLinesExactly | scripts/lib/section-ledger-rules.ts:45-49 | The section reader sees the lines the ledger parser sees, with the same numbers |
| TextBlocks.GroupBlocks | scripts/lib/section-ledger-rules.ts:193-215 | The loop returns the declared blocks, each from the line that begins it up to the next such line |
| TextBlocks.BlocksPartition | scripts/lib/section-ledger-rules.ts:193-215 | The blocks partition the non-blank lines, in order |
| SectionLaws.BlocksExactly | scripts/lib/section-ledger-rules.ts:180-215 | A block begins exactly on a line with text that is a top-level bullet, or the first of all, or below a blank line and not set in by two; it is a bullet by that line and takes the text up to the next such line |
| SectionLaws.BulletExactly | scripts/lib/section-ledger-rules.ts:182-187 | A top-level bullet is at most one character of white space, a dash, a star or a number with a dot, and white space |
| TextBlocks.FirstDispositionIndex | scripts/lib/section-ledger-rules.ts:163-178 | The least offset of the text at which a counting phrase of some sentence starts, none if there is none; it lies in the text, on a character of the phrase |
| TextBlocks.LexicalHitLine | scripts/lib/section-ledger-rules.ts:227-237 | The line reported is the block line in whose own text the first counting phrase of the joined block starts; none is reported exactly when no phrase counts |
| TextBlocks.LineHolding | scripts/lib/section-ledger-rules.ts:231-235 | The loop finds the line whose stretch of the joined text holds the offset |
| TextBlocks.LineInJoined | scripts/lib/section-ledger-rules.ts:227-235 | Each line of a block stands in the joined text from the offset the loop gives it, with one space before the next |
| Sentences.SentenceInLine | scripts/check-review-tradeoff-ledger.ts:206-214 | Each sentence stands in the line at the offset the loop has counted |
| TradeoffLaws.SentencesExactly | scripts/check-review-tradeoff-ledger.ts:206-214 | A sentence holds no break, and ends at a full stop or semicolon with a space behind it or at the end of the line |
| TradeoffHits.CountStarts | scripts/check-review-tradeoff-ledger.ts:161-173 | The loop finds the numbers a severity word follows, each search starting behind the last |
| TradeoffHits.StartsAreLeftToRight | scripts/check-review-tradeoff-ledger.ts:161-173 | The counts lie in the sentence, left to right, none reaching into the next |
| TradeoffLaws.StartsAreCounts | scripts/check-review-tradeoff-ledger.ts:161-173 | Every count found is a number with a severity word at once behind it |
| TradeoffLaws.CountsAreFound | scripts/check-review-tradeoff-ledger.ts:161-173 | Every number with a severity word at once behind it is found, unless it begins inside a count that is |
| TradeoffHits.ExtendCount | scripts/check-review-tradeoff-ledger.ts:176-185 | The phrase is extended until no continuation follows, and its numbers are summed |
| TradeoffHits.CountHits | scripts/check-review-tradeoff-ledger.ts:187-197 | The counts above zero with an unfixed word close behind |
| TradeoffLaws.CountHitExactly | scripts/check-review-tradeoff-ledger.ts:176-197 | A sentence has a count hit exactly when one of its counts, with the chain of continuations behind it, sums to more than zero and an unfixed word stands in the sixty characters behind; the hit carries that text, offset and sum |
| TradeoffHits.HitsAreAt | scripts/check-review-tradeoff-ledger.ts:206-216 | Despite the cutting into sentences every hit is the line's own text at its offset |
| TradeoffHits.OverlapsResolved | scripts/check-review-tradeoff-ledger.ts:220-229 | What is kept is disjoint and ascending; what is dropped starts inside a kept hit |
| TradeoffHits.OrderDoesNotMatter | scripts/check-review-tradeoff-ledger.ts:205-229 | For every line, what is kept of its hits is the same in whatever order they were found |
| TradeoffHits.OneOfALine | scripts/check-review-tradeoff-ledger.ts:199-215 | Two hits of a line over the same stretch are one hit: counts start with a number, phrases with another word, and sentences do not overlap |
| TradeoffHits.DropOverlaps | scripts/check-review-tradeoff-ledger.ts:220-229 | The loop keeps exactly those hits |
| TradeoffHits.FindTradeoffHits | scripts/check-review-tradeoff-ledger.ts:206-216 | All non-negated hits of the line, placed and resolved |
| TradeoffLaws.KeptExactly | scripts/check-review-tradeoff-ledger.ts:206-229 | Every hit kept is, at its sentence's offset, a phrase or count hit not negated there; every such hit is kept or begins inside one that is |
| DiffReaders.SonarAddedLines | scripts/lint-changed-sonar.ts:96-118 | The loop attaches file and line to the added rows |
| DiffReaders.SafetyAddedLines | scripts/check-public-safety.ts:420-443 | The same for the other reader |
| DiffReaders.ReadersAreExact | scripts/check-public-safety.ts:420-443 | On every rendered diff the one reader is right if and only if no added line starts with `++` and every file that adds a line is printed by its path alone, without the tab behind a path with a space and without quotes; the other if and only if no added line starts with `++ b/`, the same holds of the paths, and no deleted or quoted file comes below a named one |
| DiffReaders.ReadersAgree | scripts/lint-changed-sonar.ts:96-118 | Without added lines that start with `++` both attach the same file and line to each added line if and only if no deleted or quoted file comes below a named one |
| UnifiedDiffs.ReaderIsExact | scripts/lint-changed-sonar.ts:96-118 | Any reader that handles the rows of a diff one by one is right exactly when it recognises every added row, every file that adds a line is printed by its path alone, and, if it is blind to file rows without a name, none comes below a named file |
| WorkerPool.DispatchedInOrder | scripts/audit-quota-isolation-bench.ts:519-537 | In every schedule the indexes are dispatched in order, each at most once, and at most min(concurrency, count) workers are in flight |
| WorkerPool.CompletedIsComplete | scripts/audit-quota-isolation-bench.ts:519-537 | A completed pool has dispatched every index once and holds one result for each, if and only if it had a runner or nothing to do |
| BenchArm.PeakBound | scripts/audit-quota-isolation-bench.ts:608-679 | In every run the gauge counts exactly the writes in flight, and its peak never exceeds the two configured concurrencies together |
| BenchLaws.PeakIsHighest | scripts/audit-quota-isolation-bench.ts:606-617 | In every run the peak is the highest count any state had: none has a higher one, and one has it or it is the one write that seeded the row |
| BenchLaws.OrgBCounts | scripts/audit-quota-isolation-bench.ts:643-679 | In every run org B's writes of a repetition are numbered in order from 0, no more than the target, it stops only at the target or when org A is done, and the repetitions are counted up to their number |
| BenchLaws.SettledDrains | scripts/audit-quota-isolation-bench.ts:656-679 | Once org A is done no write begins until the next repetition, which begins with none in flight |
| BenchLaws.PathOfRun | scripts/audit-quota-isolation-bench.ts:643-679 | Every run goes through the states of such a path |

## Left out

- Real file calls, clocks, process IDs, sleeping and deadlines (`scripts/lib/safe-edit.ts`): the file operations are atomic steps, giving up is a free choice, and owner ids are unique because no two creations write the same content; temp files, file modes and failing system calls are not modelled.
- Reading an empty or unparsable lock: such a lock is never judged stale, which is all the code does with it; the timestamp inside the lock is represented by the judgement itself.
- Exclusion with three or more contenders while live locks are moved: it fails, and `FileLock.ThreeContendersBreak` is the run.
- Locking inside the single-process methods: `NextDwId.ReserveDwIds` and `ReplaceReservation.ReplaceReservation` are the calls run alone; `LedgerRuns` is where they interleave under the lock.
- LedgerRuns.IdsAreUnique: assumes that no outside edit leaves a fence open or lowers the highest ID, and that no replacing entry leaves a fence open; `NextDwId.ReservationsDiffer` and `ReplaceReservation.EntryFenceDecides` show what happens otherwise.
- ReplaceReservation.ReplaceKeepsIds: the entry has one DW heading, is no stub and leaves no fence open; an entry with more headings is covered by `NextDwId.ReplaceKeepsMax` only.
- DwReservation.StubRoundTrip: the timestamp text is recovered, not the epoch value parsed from it; timestamps have the 24-character shape, so years outside 0000-9999 are not covered.
- Numbers above 2^53 and lower-casing of non-ASCII letters in IDs; characters are UTF-16 code units in the source and are treated as characters here.
- Git subprocesses, ref listing and fetching (`scripts/next-dw-id.ts`): refs are further ledger contents given to the allocation; warnings and the command line are left out.
- The DW citation scanner, the age checks on reservations and the duplicate-ID guard: one-pattern scanners and one-branch verdicts.
- The tree scan behind the hits and the file check behind `gate` entries (`scripts/lib/native-credential-surface-scan.ts`): hits are given, and which files wire the gate is a predicate.
- Import parsing and resolution, file reading and the markup walk (`scripts/lib/region-hosts.ts`): the resolved imports of each file are a finite map; `edgeProblem` and the problem texts are left out.
- RegionHosts.DeriveRegionHosts: the reached set is applied to all region files at once, where the source walks it element by element; the lists are the same.
- ImportClosures.FindLicenseClosureProblems: problems are not turned into sorted messages, a problem names the declaring package itself where the message names it as it was required, and whether a licence is permissive is a predicate.
- `commonDirectory` and `emittedPath` (`scripts/lib/compile-source-subset.ts`): where a compiled file is written, and the common prefix of the sources.
- The import boundary of the kit (`scripts/check-composition-kit-boundary.ts`) and `scripts/check-unrun-check-destinations.ts`: which imports are forbidden, and the comparison of unresolved fingerprints with a recorded set.
- Extracting candidate paths from trigger prose and collecting fired triggers (`scripts/lib/dw-trigger-hits.ts`): token trimming and filtering around the matcher.
- The Svelte parser and the plugin hooks (`apps/web/config/injection-plugins.ts`): uses, offsets and the script block are inputs; JSON quoting is a function.
- Heading, title, phrase, negation and severity patterns (`scripts/lib/section-ledger-rules.ts`, `scripts/check-review-tradeoff-ledger.ts`): they are functions with the promises a pattern engine gives; numbers in words, `findCheckedDefers`, `dedupeViolations` and the violation reports are left out.
- SectionRules.ExtractSections: the source drops fenced lines and builds sections in one loop; here `CollectPlainLines` and `ExtractSections` are two.
- DiffReaders.ReadersAreExact: the diff is given row by row, with the escaped form of a quoted path as an input; carriage returns are not rendered, a path that ends in a tab is not covered, and the word filters applied to the added lines are left out.
- SafeEdit.EditedExactly: the share of bytes lost is compared as a real number; the source divides doubles, so at a share that has no exact double, such as 3 to 2 bytes with a ratio of one third, the verdict can differ.
- Timing, databases and percentiles of the bench (`scripts/audit-quota-isolation-bench.ts`): workers finish or throw at any time.
