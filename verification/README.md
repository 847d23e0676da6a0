# pdmux agent, verified

A Dafny model of the stateful protocols of the pdmux agent, the Go program under `agent/`
that keeps terminals, files and git pictures of a host available to a server, and proofs of
what those protocols promise. `dafny verify dfyconfig.toml` verifies all of it.

Each source file has its module or small family of modules:

- **Uploads** (`agent/internal/fs/transfer.go`): `TransferNames` (paths and reserved names),
  `TransferDisk` (names, files with hard links, what other programs may do), `TransferSpec`
  (the invariant, and the trail of disks), `TransferSteps` (each single primitive keeps it),
  `TransferAnswers` (what a request is answered, and what follows for runs), `Transfer` (the
  class `Root` whose methods are the requests), `TransferSending` (a whole upload that succeeds). A request is its sequence of filesystem
  primitives. Before each of them other programs may run, the primitive may fail, and the
  process may die; a failing write may leave any prefix of its data. Every change of the disk,
  the agent's or another program's, is logged, each starting where the one before it ended.
  The invariant holds at every crash point, and `Root.Run` carries it over any run.
- **Session engine** (`agent/internal/session/`): `Engine` (sessions, viewers, the viewer in
  use), `FreeName`, `Restore` (the record of live sessions), `Boots` (helpers over boots of a
  machine), `Modes` and `Render` (repainting viewers through a channel of one frame), `Names`
  (visible names over an engine that cannot rename), `Ipc` (one engine per root, start and
  upgrade), `TitleFilter`.
- **Relay** (`agent/internal/term/`): `Utf8`, `PtyOutput` and `Relay` (from the child's reads to
  frames), `Sizes` and `Sizing` (making an older engine follow the newer size rule).
- **Git** (`agent/internal/git/`): `DiffPaths`, `Patch` and `Diff` (reading and capping
  patches), `PatchRoundTrip` (what git prints for a change, and that it is read back), `Ledger`
  (details known, and the budgeted passes they drive).
- **Versions** (`agent/internal/semver/semver.go`): `Strings`, `Semver`.

Where the Go code works through fields, maps and loops, so do the classes here; the functions
beside them say what the result is to be, and lemmas prove what that means. Concurrency is an
interleaving of atomic steps: one step is one stretch under the mutex, one filesystem
primitive, or one message. What the environment does (other programs, faults, the clock, a
viewer that reads, a program that ends) comes from unconstrained functions given to the
constructors, so every statement holds for all of it.

## Main results

- Uploads: `TransferSending.SendFile`, `TransferAnswers.CommittedWasWhole`, `TransferAnswers.PublishedWasSent`,
  `TransferAnswers.AcceptedIsSent`, `TransferAnswers.WritesArePlaced`,
  `TransferAnswers.OffsetsNeverGoBack`, `TransferAnswers.StagingIsTrue`, `TransferAnswers.NewlyCommittedIsWhole`,
  `TransferAnswers.SweepRemovesExactlyExpired`, on the runs `Transfer.Root.Run` makes.
- Repainting: `Render.Run`, `Render.HeldIsSeen`. Restoring: `Boots.GoneStaysGone`, `Boots.LiveSessionComesBack`.
  Names: `Names.Run`, `Names.NameStays`. One engine: `Ipc.Run`,
  `Ipc.SuccessIsAnswered`, `Ipc.EnsureStartsEngine`, `Ipc.UpgradeReplaces`, `Ipc.EndpointChanges`,
  `Ipc.StoppingStaysEmpty`. Titles: `TitleFilter.ExactlyTitlesRemoved`.
- Relay: `Relay.RelayChild`. Sizes: `Sizing.Manager.Run`, `Sizing.OpenedFollowsRuleIff`.
- Git: `PatchRoundTrip.SplitRender`, `DiffPaths.RenameRoundTrip`, `DiffPaths.QuotedNewRoundTrip`,
  `Diff.CapFiles`, `Ledger.PassesWithinCap`, `Ledger.BuiltOnceIffWithinCap`,
  `Ledger.DeliveredOnceIffNoneCutShort`.
- Versions: `Semver.ParseIsExact`, `Semver.CompareIsPrecedence`, `Semver.PrecedenceIsTotalPreorder`.

## Where the code and the promise part

These follow the code; each has a lemma or method with the case in which a promise fails.

- `TransferSteps.AnotherUploadReplaces`: a journal that says Committed says what was true when
  it was written. A later upload to the same path may replace the file;
  `TransferSteps.CommittedUntilReplaced` says exactly when the content stays.
- `Transfer.DiscardCutShort`: a discard or cleanup cut short between its two removals leaves a journal
  whose bytes are gone. Nothing else does: `TransferAnswers.StagingIsTrue`; and
  `Transfer.Root.DiscardUpload` says what is left by where it was cut.
- `Transfer.StatCommitsThroughLink`: recovery opens the destination by name, and a stat does not
  look for a link at the path itself, so it may commit a link another program left behind a crash.
  `TransferAnswers.NewlyCommittedIsWhole` says that this is the only case.
- `Relay.LossIsUnreported`: for output that is not well-formed UTF-8, trimming after a drop can
  lose up to three bytes that no frame reports.
- `DiffPaths.RenameMisread`: an unquoted header of a rename is refused or misread exactly when one
  of the paths contains " b/" (`DiffPaths.RenameRoundTrip`); so is one whose new path alone is quoted
  (`DiffPaths.QuotedNewRoundTrip`). The rename lines that git adds make `PatchRoundTrip.SplitRender`
  hold all the same.
- `Ledger.BuiltOnceIffWithinCap`: a window larger than the cap makes passes rebuild details.
- `Ledger.FailedPassHidesDetails`: a pass that fails behind a first success has recorded details that
  no snapshot ever carries. `Ledger.DeliveredOnceIffNoneCutShort` says that this is the only way to
  lose one, `Ledger.CutShortIff` when it happens.
- `Sizing.OpenWithEarlyUse`: a resize in the moment between registering a viewer and
  `nativeOpened` is told to the engine and forgotten. `Sizing.OpenedFollowsRuleIff` says when that
  shows, and `Sizing.ResizeRepairs` what puts it right.
- `Boots.TerminatedBeforeItsEndComesBack`: a terminated session comes back if the helper does
  not live to see its end.
- `Ipc.OlderCanWin`: a client that waits for the engine it started takes any engine that answers, so it
  may come back with an older one that somebody else started meanwhile. `Ipc.SuccessIsNotOlder` says
  that this is the only way, `Ipc.SuccessIsAnswered` what success means at all.
- `Names.UnawareClientClashes`: clients that do not know the catalog can make visible names clash.

## Model

| member | source | states |
|---|---|---|
| TransferNames.AcceptedIsNotReserved | agent/internal/fs/transfer.go:67-80 | no accepted path is, or lies in, the state directory or has a staging name: it never equals a journal, an in-progress journal or a staging file of any upload |
| TransferNames.SpellingsAreUnique | agent/internal/fs/transfer.go:67-80 | two accepted spellings of one path are the same string |
| TransferNames.UploadsNeverShareNames | agent/internal/fs/transfer.go:446-451 | distinct (transfer, entry) pairs, or distinct directories, never share a journal or staging name, and the three kinds of name never meet |
| TransferDisk.HashesAppend | agent/internal/fs/transfer.go:276-317 | on a chunk boundary the digest list of longer content is the old list and the new chunk's digest |
| TransferDisk.EqualHashesEqualBytes | agent/internal/fs/transfer.go:234-246 | with an injective chunk hash, equal sizes and digest lists mean equal bytes |
| TransferSpec.OneLegalLength | agent/internal/fs/transfer.go:276-283 | at each offset the chunk guard admits exactly one length |
| TransferSpec.JournalShape | agent/internal/fs/transfer.go:264-267 | a reachable journal has Offset = min(Size, chunk * number of digests) |
| TransferSpec.PublishedBytes | agent/internal/fs/transfer.go:246-262 | every publication step of a run leaves at its journal's path byte for byte the chunks that were accepted |
| TransferSpec.EnvKeeps | agent/internal/fs/transfer.go:105-269 | what other programs do between two primitives keeps the invariant |
| TransferSteps.SaveKeeps | agent/internal/fs/transfer.go:482-500 | renaming the new journal over the old keeps the invariant for every upload |
| TransferSteps.CreateKeeps | agent/internal/fs/transfer.go:301-305 | creating an empty staging file keeps the invariant |
| TransferSteps.WriteKeeps | agent/internal/fs/transfer.go:306-311 | writing any prefix of the next chunk at the journal's offset keeps the invariant: bytes accounted for are not touched and the file does not outgrow Size |
| TransferSteps.RemoveStageKeeps | agent/internal/fs/transfer.go:207-215 | removing a staging file never removes a destination, whatever hard links exist |
| TransferSteps.RemoveJournalKeeps | agent/internal/fs/transfer.go:207-215 | removing a journal whose staging file is gone keeps the invariant |
| TransferSteps.PublishKeeps | agent/internal/fs/transfer.go:246-262 | rename or link of the checked staging file keeps the invariant of this and every other upload |
| TransferSteps.PublishedAt | agent/internal/fs/transfer.go:246-262 | the destination is the complete new file at once; without replace only a free name is taken |
| TransferSteps.CrashAfterPublishIsRecovered | agent/internal/fs/transfer.go:187-206 | after a crash behind the rename, the link, or the link and the removal, the evidence recovery looks for is there |
| TransferSteps.StageHoldsAccepted | agent/internal/fs/transfer.go:264-267 | before publication the staging file starts with exactly the accepted bytes, and is no larger than Size; the digests in the journal are theirs |
| TransferAnswers.StagingIsTrue | agent/internal/fs/transfer.go:276-317 | so it is throughout any run, crashes included, for every upload of which no discard, and over which no sweep, was cut short |
| TransferSteps.InterruptedDiscardLosesBytes | agent/internal/fs/transfer.go:207-215 | a crash between the two removals of a discard leaves a journal that claims bytes no staging file holds |
| Transfer.DiscardCutShort | agent/internal/fs/transfer.go:207-215 | a discard whose second removal fails leaves a journal that still claims bytes and no staging file |
| TransferSteps.CommittedUntilReplaced | agent/internal/fs/transfer.go:246-262 | a committed file's content survives a step of the agent unless, and only unless, that step publishes at its path an upload of another size or other digests |
| TransferSteps.AnotherUploadReplaces | agent/internal/fs/transfer.go:216-262 | publishing another upload over a committed one leaves the first journal saying Committed while the destination no longer matches it |
| TransferSteps.LinkBehindCrash | agent/internal/fs/transfer.go:187-206 | after a crash behind the rename another program may move the file and leave a link; what recovery looks for is still there |
| Transfer.StatCommitsThroughLink | agent/internal/fs/transfer.go:137-141 | a stat of that path then makes the journal Committed although the path is no regular file |
| TransferAnswers.NewlyCommittedIsWhole | agent/internal/fs/transfer.go:141-269 | without faults a request that makes a journal Committed leaves the accepted bytes in a regular file at its path, except exactly a stat where a link stands |
| TransferAnswers.LinkBlocks | agent/internal/fs/transfer.go:82-103 | on a tree of directories a link at or above a path is always found by the look for links |
| TransferAnswers.OffsetsNeverGoBack | agent/internal/fs/transfer.go:264-267 | over any run, until an upload is discarded or swept, reported offsets never go back and Committed stays |
| TransferAnswers.AcceptedIsSent | agent/internal/fs/transfer.go:264-317 | over any run, whatever fails and whoever else uploads, what the agent takes for accepted is the concatenation of the chunks whose writes were answered Ok since the upload last had no journal, replays left out |
| TransferAnswers.WritesArePlaced | agent/internal/fs/transfer.go:276-317 | every chunk answered Ok, replayed ones too, is byte for byte at its offset in those bytes until the upload ends |
| TransferAnswers.MarkedWasConfirmed | agent/internal/fs/transfer.go:216-245 | a journal is marked for publication only after a commit request that gave the digest of exactly what was accepted |
| TransferAnswers.PublishedWasSent | agent/internal/fs/transfer.go:216-262 | whatever a run publishes had been sent in full by writes answered Ok, and is published by a commit that gave its digest |
| TransferAnswers.CommittedWasWhole | agent/internal/fs/transfer.go:187-269 | over any run with crashes anywhere, when an upload is reported Committed, what the client had sent for it has the size asked for, a commit of that upload gave its digest, and on some disk of that run the destination held it byte for byte |
| Transfer.HashChunks | agent/internal/fs/transfer.go:319-344 | the loop returns the digest of every chunk in order |
| Transfer.Root.NoLinks | agent/internal/fs/transfer.go:82-103 | every component was seen to be a directory and no link when it was looked at, the last one no link, or missing where that is allowed; without faults it passes exactly then, and what blocks the way decides the error |
| Transfer.Root.HashFile | agent/internal/fs/transfer.go:319-344 | digests are those of the file reached by the path, and only if it has the size asked for |
| Transfer.Root.Save | agent/internal/fs/transfer.go:482-500 | either the journal is the new one, or its old content is untouched, at whatever primitive a failure strikes |
| Transfer.Root.Load | agent/internal/fs/transfer.go:465-481 | a journal this program wrote is returned as written, or reported missing, never garbled |
| Transfer.Root.Recover | agent/internal/fs/transfer.go:187-206 | Committed is set only after the destination was seen with the journal's digests on a disk of this very request; without faults exactly the interrupted publications are recognised |
| Transfer.Root.WriteChunk | agent/internal/fs/transfer.go:276-317 | a replayed chunk changes nothing; the chunk at the offset extends file and journal; a chunk is taken exactly when legal, undamaged and in place |
| Transfer.Root.PublishStage | agent/internal/fs/transfer.go:246-257 | one primitive, on the trail of disks, moves the destination from its old content to the whole new file; without replace an existing destination is refused |
| Transfer.Root.CommitUpload | agent/internal/fs/transfer.go:216-262 | a commit goes through exactly when the whole file was accepted, the staging file still hashes to it and the destination is free or a file that may be replaced; the journal is marked, and anything published, only if the client's digest is that of the accepted chunks; success means that publication is on the trail, and without faults the file is at its destination |
| Transfer.Root.DiscardUpload | agent/internal/fs/transfer.go:207-215 | success removes the journal, failure forgets nothing that was reported or accepted; it succeeds exactly when both removals happen, and one cut short between them has removed the staging file; other uploads keep journals and accepted bytes; without faults exactly the two names of this upload are removed |
| Transfer.Root.Transfer | agent/internal/fs/transfer.go:105-269 | the reply is the journal's; every other upload keeps its journal and accepted bytes, and so does this one when the request fails, but that a write may begin it and a commit with the right digest mark it; accepted bytes grow by exactly the written chunk; only a commit with the right digest publishes, and exactly the accepted bytes; no report is taken back but by its own discard; only a failed discard may leave a journal without its bytes; a new Committed rests on a disk of this request with the whole file; without faults the disk determines every reply and every error code, also when there is no journal yet: a first write begins the upload with exactly that journal and those bytes, mkdir makes what can be made, and a link or file in the way refuses the request before anything changes |
| TransferSending.SendFile | agent/internal/fs/transfer.go:137-269 | without faults, for every content and every free path, sending the chunks in order and then the commit is granted at each step, and the file is there |
| TransferSending.WriteGoesOn | agent/internal/fs/transfer.go:167-186 | each chunk sent in its turn is taken, from the first, which begins the upload, on |
| TransferSending.CommitGoesThrough | agent/internal/fs/transfer.go:216-262 | the commit of an upload that got everything is granted |
| Transfer.Root.Expire | agent/internal/fs/transfer.go:526-537 | only a day-old upload may be forgotten, every other keeps journal and accepted bytes, and only a failure may leave its journal without bytes; without faults it loses its two files exactly when no link leads to its directory |
| Transfer.Root.Cleanup | agent/internal/fs/transfer.go:504-547 | only listed, day-old uploads are forgotten, every other keeps journal and accepted bytes, and nothing is published, at whatever primitive a crash strikes; without faults it is the sweep of the listed uploads |
| TransferAnswers.SweepRemovesExactlyExpired | agent/internal/fs/transfer.go:504-547 | a sweep removes journal and staging file of exactly the listed uploads that have expired; every other upload keeps both |
| TransferAnswers.SweepKeepsDestinations | agent/internal/fs/transfer.go:502-504 | a sweep touches no name outside the protocol, so no destination |
| Transfer.Root.Run | agent/internal/fs/transfer.go:105-269 | over any run of requests, cleanups, crashes and restarts each command is answered as its contract says, every change of the disk is on a chained trail and is the world's or safe (no mixture of contents, no clobbering, no foreign file removed), and every publication left the accepted bytes, which are the ones sent (TransferAnswers.AcceptedIsSent) |
| PtyOutput.SplitRune | agent/internal/term/pty_common.go:96-113 | nothing is lost and at most three bytes are held back |
| PtyOutput.SplitAtIsCut | agent/internal/term/pty_common.go:96-126 | on a prefix of well-formed text the cut is the last character boundary |
| PtyOutput.PumpOutput | agent/internal/term/pty_common.go:128-167 | all bytes are passed on in order in non-empty chunks, each well-formed when the whole output is |
| Relay.TrimOrphanBytes | agent/internal/term/manager.go:726-732 | at most three leading continuation bytes go, and then the data starts with none |
| Relay.FrameEnd | agent/internal/term/manager.go:710-723 | a frame has at most 65536 bytes, at least three fewer when more follow, and never ends inside a character of well-formed data |
| Relay.CutFrames | agent/internal/term/manager.go:637-659 | the frames concatenate to the data, each small and well-formed, and the loss is reported once |
| Relay.Terminal.Push | agent/internal/term/manager.go:613-624 | the buffer keeps the newest chunks within the cap and counts every byte it drops |
| Relay.Terminal.Flush | agent/internal/term/manager.go:626-659 | for any bytes: what was pushed is the frames in order, what they report lost, at most three trimmed continuation bytes per loss, and the buffer; and the buffer is empty |
| Relay.LossIsUnreported | agent/internal/term/manager.go:726-732 | bytes vanish uncounted exactly when a drop leaves the buffer starting with a continuation byte |
| Relay.CleanHasNoOrphans | agent/internal/term/manager.go:726-732 | with well-formed chunks that never happens |
| Relay.PlaceOf | agent/internal/term/manager.go:626-659 | without trimming each frame's data is the output at the place given by the data and reported losses before it |
| Relay.Pump | agent/internal/term/manager.go:497-570 | for any timing of chunks and flushes, and any bytes, every frame stands in the output behind what came before and what it reports lost; with well-formed chunks nothing is trimmed, frames are well-formed and without a drop they are the output |
| Relay.RelayChild | agent/internal/term/pty_common.go:128-167 | from the child's raw reads, however they split its well-formed output: well-formed frames, each the output at its place, every missing byte reported |
| TitleFilter.RunAppend | agent/internal/session/output.go:26-111 | filtering a concatenation is filtering its parts one after the other |
| TitleFilter.WindowTitleFilter.Filter | agent/internal/session/output.go:26-111 | the loop is the byte-by-byte scan, and the prefix never exceeds 18 bytes |
| TitleFilter.RunText | agent/internal/session/output.go:33-49 | well-formed text passes whole; a continuation byte is never taken for a terminator or introducer |
| TitleFilter.RunOsc | agent/internal/session/output.go:50-110 | an OSC string with a number passes untouched or vanishes whole, whichever way it starts and ends |
| TitleFilter.ExactlyTitlesRemoved | agent/internal/session/output.go:26-111 | on any stream of text, other escapes and OSC strings exactly the OSC 0, 1 and 2 strings are removed |
| TitleFilter.TitlesAreZeroOneTwo | agent/internal/session/output.go:60-70 | titles are exactly the commands whose digits are zeros followed by 0, 1 or 2 |
| TitleFilter.FilterChunks | agent/internal/session/output.go:26-111 | the same under any chunking |
| Semver.ParseOfPrint | agent/internal/semver/semver.go:108-177 | printing a valid version and parsing it gives the version back |
| Semver.PrintOfParse | agent/internal/semver/semver.go:108-177 | parsing succeeds only on the print of a valid version, the one returned |
| Semver.ParseIsExact | agent/internal/semver/semver.go:108-177 | the accepted strings are precisely the prints of valid versions of at most 256 bytes |
| Semver.Parse | agent/internal/semver/semver.go:108-177 | the loops compute that parse |
| Semver.PrecedenceIsTotalPreorder | agent/internal/semver/semver.go:210-252 | Compare is sign-antisymmetric, transitive, and zero exactly on equal core and prerelease |
| Semver.BuildIsIgnored | agent/internal/semver/semver.go:210-252 | build metadata never changes a comparison |
| Semver.NumericOrderIsNumberOrder | agent/internal/semver/semver.go:180-204 | length-then-bytes order of numeric identifiers is the order of the numbers, of any length |
| Semver.Compare | agent/internal/semver/semver.go:210-252 | the result is negative exactly when the first version is lower in the words of item 11 of the standard, positive exactly when the second is |
| Semver.CompareIsPrecedence | agent/internal/semver/semver.go:180-245 | that order is item 11: the first differing core number, then prerelease before release, then the first differing identifier, numbers by value and below words, words by bytes, and a shorter list before a longer |
| Semver.CompareStrings | agent/internal/semver/semver.go:258-268 | there is an order exactly when both sides parse, and then it is that one |
| DiffPaths.PatchQuotedPath | agent/internal/git/diff_paths.go:9-24 | the scan finds the closing quote and undoes C quoting |
| DiffPaths.PatchPathPair | agent/internal/git/diff_paths.go:26-68 | the candidate loop picks the only reading, or the only one that names one path twice |
| DiffPaths.SamePathRoundTrip | agent/internal/git/diff_paths.go:26-68 | "a/p b/p" gives (p, p) for every p without a quote, however often it contains " b/" |
| DiffPaths.RenameRoundTrip | agent/internal/git/diff_paths.go:26-68 | an unquoted header of two different paths is read back exactly when neither path contains " b/" |
| DiffPaths.RenameMisread | agent/internal/git/diff_paths.go:54-66 | a header that is not can be misread as an unchanged path |
| DiffPaths.QuotedRoundTrip | agent/internal/git/diff_paths.go:9-24 | for every byte path, C-quoted and followed by anything, the path and the end of its quotation come back |
| DiffPaths.QuotedPairRoundTrip | agent/internal/git/diff_paths.go:26-39 | a header with both paths quoted is read back for all pairs of byte paths |
| DiffPaths.QuotedOldRoundTrip | agent/internal/git/diff_paths.go:26-39 | so is one whose old path alone is quoted |
| DiffPaths.QuotedNewRoundTrip | agent/internal/git/diff_paths.go:40-68 | a header whose new path alone is quoted is read back exactly when neither path contains " b/", or both are the same |
| Diff.CutLines | agent/internal/git/diff.go:156-169 | the longest prefix of lines within the budget is kept and the file marked truncated |
| Diff.CapFiles | agent/internal/git/diff.go:141-177 | at most 200000 bytes; kept + dropped = input; kept files keep their order and are whole or cut to the room there was; the first is always kept; a diff that fits is untouched; a file is skipped only when it does not fit and at most 4096 bytes of room are left |
| Patch.Clip | agent/internal/git/text.go:12-28 | a string is cut after that many characters |
| Patch.ClipCounts | agent/internal/git/text.go:12-28 | clipping takes as many characters as asked for, or all there are |
| Patch.ClipIsBoundary | agent/internal/git/text.go:12-28 | no character of well-formed text is cut |
| Patch.AddContent | agent/internal/git/diff.go:104-123 | lines are counted before the caps, so Add and Del are of the whole file while at most 800 clipped lines are carried, and Truncated says whether anything was lost |
| Patch.SplitPatch | agent/internal/git/diff.go:35-129 | one file per header line, each with the true counts of its section |
| PatchRoundTrip.MarkerRoundTrip | agent/internal/git/diff_paths.go:79-95 | a file marker gives its path back, quoted or not, with or without the tab |
| PatchRoundTrip.SectionMeaning | agent/internal/git/diff.go:35-129 | one printed file is read back with its paths, status and counts |
| PatchRoundTrip.SplitRender | agent/internal/git/diff.go:35-129 | splitting what git prints for any list of edits, creations, deletions and renames gives every change back, also where a header is ambiguous or a hunk line looks like a marker |
| Ledger.ShaSet.Add | agent/internal/git/ledger.go:178-190 | a known sha keeps its place, a new one goes last and the oldest give way |
| Ledger.AddedAllFits | agent/internal/git/ledger.go:178-190 | while there is room the set is the order of insertion |
| Ledger.AddedKeepsNewest | agent/internal/git/ledger.go:178-190 | a known sha changes nothing; a new one comes last, and what gives way is older than all that stays |
| Ledger.DetailLedger.Record | agent/internal/git/ledger.go:81-85 | only this repository's memory tier changes |
| Ledger.DetailLedger.Ack | agent/internal/git/ledger.go:88-98 | only this repository's acknowledged tier changes, and the disk then holds it |
| Ledger.DetailLedger.Adopt | agent/internal/git/ledger.go:51-71 | another host's acknowledgements are dropped and this host's loaded |
| Ledger.DetailLedger.Forget | agent/internal/git/ledger.go:115-121 | both tiers of one repository go, no other changes, and the disk then says so |
| Ledger.Restart | agent/internal/git/ledger.go:13-25 | a new process knows exactly what the server confirmed to the old one and nothing merely sent |
| Ledger.CollectDetails | agent/internal/git/snapshot.go:155-175 | the newest missing details within budget are built and recorded, Pending is the rest; a pass fails behind a first success exactly when the first sha due can be read and another one due cannot |
| Ledger.MissingMembers | agent/internal/git/snapshot.go:155-160 | the missing shas are those of the window neither tier has, each once |
| Ledger.CollectRun | agent/internal/git/snapshot.go:155-175 | passes of the ledger object are the passes of the specification |
| Ledger.PassesWithinCap | agent/internal/git/snapshot.go:155-175 | k passes over a window within the cap have built its first k * budget shas, each once, newest first |
| Ledger.PendingReachesZero | agent/internal/git/snapshot.go:155-176 | Pending is zero from pass ceil(n / budget) on and not before |
| Ledger.BuiltOnceIffWithinCap | agent/internal/git/ledger.go:178-190 | no detail is ever built twice exactly when the window fits the cap |
| Ledger.FailedPassHidesDetails | agent/internal/git/snapshot.go:164-174 | over any passes, with any windows the cap holds and any patches unreadable, a detail is recorded and in no snapshot exactly if a pass that was cut short recorded it |
| Ledger.CutShortIff | agent/internal/git/snapshot.go:164-174 | a pass is cut short exactly when the first sha due can be read and another one due cannot |
| Ledger.DeliveredOnceIffNoneCutShort | agent/internal/git/snapshot.go:155-175 | over any such passes every recorded detail was in exactly one snapshot if and only if no pass was cut short |
| Ledger.CollectPasses | agent/internal/git/snapshot.go:155-175 | that is what passes and acknowledgements make of the ledger object |
| Sizing.LegacySizing | agent/internal/term/native_sizing.go:27-30 | an engine is legacy exactly when its version says nothing or is lower than 0.1.38 |
| Sizing.Manager.Opened | agent/internal/term/native_sizing.go:34-48 | a new viewer is recorded at the size it attached with and reported no larger than the one in use, the engine being told if that differs; nothing else changes |
| Sizing.Manager.Use | agent/internal/term/native_sizing.go:54-90 | the viewer becomes the one in use at its own size, every other is clamped to it, and the engine is told exactly what changed, and a new size anyway; for a newer engine the caller is told to send the resize |
| Sizing.Manager.Released | agent/internal/term/native_sizing.go:95-114 | when the viewer in use leaves, everybody else gets their own size back and the engine is told what changed |
| Sizing.Manager.HandleResize | agent/internal/term/manager.go:312-318 | after a resize frame the engine was told the new size |
| Sizing.UsedIsSound | agent/internal/term/native_sizing.go:54-90 | a use puts its session right whatever was wrong with it, except that a viewer the engine was misled about stays so until it is resized or clamped |
| Sizing.OpenedFollowsRuleIff | agent/internal/term/native.go:81-84 | nativeOpened leaves the screen following the newer rule exactly when what the engine was last told of the viewer makes no difference |
| Sizing.LegacyEngineFollowsRule | agent/internal/term/native_sizing.go:9-18 | over any run of the manager, after every event the largest size the engine knows is the size the newer rule gives, for every session into which no resize slipped before nativeOpened |
| Sizing.Manager.Run | agent/internal/term/native_sizing.go:9-114 | every run of registrations, openings, typing, resizes, closings and releases is such a run: each event does exactly what it should, so every such session's screen is right at every moment |
| Sizing.ResizeRepairs | agent/internal/term/native_sizing.go:54-90 | a session one slipped into is right again once that viewer is resized |
| Sizing.OpenWithEarlyUse | agent/internal/term/native.go:81-84 | typing between registering a viewer and nativeOpened does no harm; a resize there is told to the engine and forgotten, and the screen is wrong exactly when it differs |
| FreeName.CandidateIsValid | agent/internal/session/restore.go:272-287 | every candidate is a valid name |
| FreeName.CandidatesDiffer | agent/internal/session/restore.go:272-287 | the 98 candidates are pairwise distinct |
| FreeName.SomeCandidateIsFree | agent/internal/session/restore.go:272-287 | fewer than 98 names cannot take all candidates |
| FreeName.FindFree | agent/internal/session/restore.go:272-287 | a free name is kept, else the first free candidate is taken, and with fewer than 98 names one is found |
| Restore.Trim | agent/internal/session/restore.go:116-125 | the newest 32 entries are kept |
| Restore.OpenStore | agent/internal/session/restore.go:85-113 | what an earlier boot left and is younger than 30 days is taken over, nothing of the own boot; the file then holds exactly that |
| Restore.RestoreStore.Record | agent/internal/session/restore.go:142-153 | the entry is in, the newest 32 are kept and saved |
| Restore.RestoreStore.Update | agent/internal/session/restore.go:156-174 | only an entry of this boot changes, and only if something changed |
| Restore.RestoreStore.Forget | agent/internal/session/restore.go:177-188 | the entry is gone from memory and file |
| Restore.RestoreStore.RestorableByName | agent/internal/session/restore.go:205-217 | the newest entry of an earlier boot with that name |
| Engine.CountViewers | agent/internal/session/engine.go:212-218 | the sum over the sessions is the number of distinct viewers |
| Engine.Resized | agent/internal/session/engine.go:474-494 | the screen follows the rule whenever there are viewers and is left alone when there are none |
| Engine.LiveSurviveTrim | agent/internal/session/restore.go:116-125 | the trim never evicts a live session of this boot |
| Engine.Engine.constructor | agent/internal/session/engine.go:99-110 | an engine starts without sessions on a record without entries of its boot |
| Engine.Engine.StopIdle | agent/internal/session/engine.go:196-204 | granted exactly when nothing runs, and then for good |
| Engine.Engine.Idle | agent/internal/session/engine.go:185-192 | stopping once nothing runs long enough, and then for good |
| Engine.Engine.Rename | agent/internal/session/engine.go:163-183 | the errors in their order, otherwise only that name changes, in the record too |
| Engine.Engine.Apply | agent/internal/session/engine.go:510-594 | whoever types or resizes is in use and the screen takes that viewer's size; looking changes nothing |
| Engine.Engine.CloseView | agent/internal/session/engine.go:596-609 | the viewer is gone, nobody is in use if it was, and the rule holds for the rest |
| Engine.Engine.Terminate | agent/internal/session/engine.go:611-623 | the session is only marked |
| Engine.Engine.End | agent/internal/session/engine.go:383-396 | an end seen while not closing, or after a terminate, is for good and leaves no entry; otherwise the entry stays |
| Engine.Engine.Predecessor | agent/internal/session/engine.go:249-255 | an ensure that restores takes the directory of the most recent earlier session of its name, if there is one, and spends that entry; every other request keeps its directory and the record |
| Engine.Engine.Start | agent/internal/session/engine.go:257-268 | the errors in their order; otherwise the session is live and its record says its name, size and directory |
| Engine.Engine.Reopen | agent/internal/session/engine.go:224-246 | a UUID recorded in an earlier boot is reopened under itself, where it was, under a free name, exactly when there is room and a shell starts |
| Engine.Engine.Open | agent/internal/session/engine.go:206-356 | a viewer is let in exactly when there is or can be a session for its request, and otherwise told the first reason that applies; it joins the session meant, which keeps its name, viewer in use and mark; a new session is started, and recorded, where its request says; an ensure that restores starts where the most recent earlier session of its name was and spends exactly that entry; a reopened session starts where it was |
| Engine.Engine.Refresh | agent/internal/session/engine.go:121-146 | every entry of a live session says its name, its size and, where it is known, its directory now; no other entry changes |
| Boots.Act | agent/internal/session/engine.go:206-396 | what each step makes of the live sessions, exactly, and which ends are for good; every step keeps the engine invariant: at most 16 sessions and 64 viewers, distinct names, the viewer in use one of its own, the screen rule, stopping without sessions for good |
| Boots.Run | agent/internal/session/restore.go:85-113 | any run of helpers and boots, step by step: which helper runs with which sessions, and whose end was seen; nothing whose end was seen is live or restorable |
| Boots.GoneStaysGone | agent/internal/session/engine.go:383-396 | once the end of a session was seen while not closing, or after a terminate, it is never live or restorable again in any later boot |
| Boots.LiveIsTakenOver | agent/internal/session/restore.go:81-113 | the record of a live session is taken over by the next boot and not by its own |
| Boots.LiveSessionComesBack | agent/internal/session/engine.go:220-246 | and comes back under its UUID and name, where it was, to the first viewer that asks |
| Boots.TerminatedBeforeItsEndComesBack | agent/internal/session/engine.go:611-623 | a terminate whose end the helper did not live to see gives the session back after all |
| Modes.ModesExact | agent/internal/session/render.go:70-84 | from any state the mode sequences leave exactly the wanted modes on |
| Modes.OnePassLosesTracker | agent/internal/session/render.go:73-82 | setting and resetting key by key would end mouse tracking, resets first do not |
| Modes.Enabled | agent/internal/session/engine.go:273-281 | an application has at most one mouse tracker |
| Modes.Disabled | agent/internal/session/engine.go:290-299 | and none after it resets one |
| Render.Compose | agent/internal/session/render.go:146-158 | a full frame writes every row and the modes, a delta only what differs from the last frame |
| Render.FullFrameShows | agent/internal/session/render.go:146-158 | a full frame brings any terminal to what the engine holds |
| Render.DeltaFrameShows | agent/internal/session/render.go:146-158 | a delta does so for a terminal that shows its base |
| Render.View.Read | agent/internal/session/ipc.go:203-210 | after a screen was read the terminal shows what the engine held when it rendered it; an error or exit ends the view |
| Render.View.Offer | agent/internal/session/engine.go:498-508 | it never blocks whatever the viewer does meanwhile |
| Render.View.Drain | agent/internal/session/render.go:93-99 | the repaint becomes full exactly when an unread frame was taken back |
| Render.FollowerSeesCursor | agent/internal/session/render.go:100-116 | a following viewport shows the cursor after every render |
| Render.HeldIsSeen | agent/internal/session/render.go:118-134 | cell by cell: a live viewer sees the screen from its viewport on and nothing beyond; a reader the frozen rows; the displayed cursor stands on the cell of the emulator's cursor and is hidden outside the viewport and while reading |
| Render.NextFreezes | agent/internal/session/render.go:118-142 | rows freeze as the lines that far back in all there are, scrolled off and on the screen |
| Render.ViewportStays | agent/internal/session/render.go:100-117 | a viewport on the screen that does not lose a followed cursor stays where it is |
| Render.ViewportIsOnScreen | agent/internal/session/render.go:116-117 | after a render a viewport lies on the screen |
| Render.ReaderKeepsItsPlace | agent/internal/session/engine.go:436-446 | while output scrolls lines off the screen a reader's first row stays the same line |
| Render.View.Render | agent/internal/session/render.go:86-179 | a frozen reader is left alone; otherwise viewport and frozen rows are as rendered and a frame of exactly this scene is under way, full exactly when asked for, when the size changed or when an unread one gave way, or an error if it is too big |
| Render.View.Prepare | agent/internal/session/engine.go:561-590 | what each request of a viewer changes before its repaint |
| Render.View.Exit | agent/internal/session/engine.go:397-407 | the last screen goes out inside the exit, unless the viewer has read it already; a screen that is too big goes out as the error |
| Render.Advance | agent/internal/session/render.go:86-179 | each step makes exactly the next scene, and whatever was read meanwhile was rendered of the scene before and then of this one |
| Render.Run | agent/internal/session/render.go:86-179 | however output, requests and reads interleave, every screen ever shown is, cell by cell, what the engine held at one of the scenes the steps lead through, the one its frame was rendered of, and what is shown never goes back to an earlier scene |
| Names.Root.OpenRaw | agent/internal/session/engine.go:231-262 | an older engine finds or starts a session by its raw name |
| Names.Root.ReadNames | agent/internal/session/names.go:23-48 | what is read is what counts for the running engine, a foreign or missing catalog counts as none |
| Names.Root.SaveNames | agent/internal/session/names.go:109-144 | saved for the generation that runs, or refused when the engine was replaced; names of dead programs go |
| Names.Root.RenameLegacy | agent/internal/session/names.go:146-183 | the session is shown under the new name and nobody else is shown differently; while nothing else happens the answer is exactly the first error that applies |
| Names.Root.StartNamed | agent/internal/session/names.go:224-245 | a new session is shown under the name asked for, hidden raw names notwithstanding |
| Names.Root.AttachNamed | agent/internal/session/names.go:185-245 | a visible name always reaches the session shown under it; a create is refused then; while nothing else happens the answer is determined by the list |
| Names.Run | agent/internal/session/names.go:185-245 | over any run of attaches, renames, deaths and replaced engines visible names are distinct at every moment and every answer is the one promised |
| Names.NameStays | agent/internal/session/names.go:63-76 | until it is renamed a session is shown under one name as long as it lives, and an attach by that name reaches it |
| Names.UnawareClientClashes | agent/internal/session/names.go:12-14 | a client without the catalog creates a clash exactly when its name is already shown |
| Ipc.CompareVersions | agent/internal/session/ipc.go:312-315 | an upgrade needs a readable version on both sides, the engine's lower by item 11 of the standard |
| Ipc.Root.Lock | agent/internal/session/ipc_unix.go:40-52 | one process gets the lock, another gives up |
| Ipc.Root.Publish | agent/internal/session/ipc.go:95-124 | the endpoint file is written only under the lock |
| Ipc.Root.StopIdle | agent/internal/session/engine.go:196-204 | an engine with programs refuses |
| Ipc.Root.RemoveEndpoint | agent/internal/session/ipc.go:124-124 | what an exiting engine removes is its own endpoint |
| Ipc.Root.Crash | agent/internal/session/ipc.go:83-94 | a dying process frees the lock and leaves its endpoint |
| Ipc.Root.Ping | agent/internal/session/ipc.go:311-341 | an engine that is not older is left alone, an older one asked to stop, and without one a new one is started |
| Ipc.Root.AskToStop | agent/internal/session/ipc.go:316-323 | only an engine without programs agrees, and if it is the one that was pinged it is older than the client |
| Ipc.Root.TestLock | agent/internal/session/ipc.go:323-339 | the client goes on only when the old engine has let go |
| Ipc.Run | agent/internal/session/ipc.go:302-373 | in every interleaving of starts, stops, crashes and clients each state is the next one and sound; the next three rows read that soundness |
| Ipc.AtMostOneServes | agent/internal/session/ipc.go:88-92 | in a sound state, so in every state of a run, at most one engine is between its lock and its unlock |
| Ipc.EndpointIsTheServers | agent/internal/session/ipc.go:100-124 | in a sound state requests reach the engine that serves; a dead endpoint was left by a crash or is about to go |
| Ipc.UpgradeEndsNoProgram | agent/internal/session/ipc.go:316-323 | in a sound state an engine that agreed to an upgrade has no program |
| Ipc.EndpointChanges | agent/internal/session/ipc.go:100-124 | the endpoint changes only when the lock holder writes it or the engine that wrote it leaves |
| Ipc.EndsWithoutPrograms | agent/internal/session/ipc.go:316-323 | an engine stops serving by a signal, a crash, or without programs |
| Ipc.StoppingStaysEmpty | agent/internal/session/engine.go:196-204 | an engine that agreed to stop never has a program again |
| Ipc.SuccessIsAnswered | agent/internal/session/ipc.go:302-373 | Ensure comes back with success only while an engine answers, and that engine is not older than the client or has programs, unless the client was waiting for one it had started |
| Ipc.SuccessIsNotOlder | agent/internal/session/ipc.go:302-373 | over any run that holds for waiting clients too, if no older engine is on its way to serve meanwhile |
| Ipc.OlderCanWin | agent/internal/session/ipc.go:360-372 | an older engine that somebody else started can come up first, and the waiting client comes back with it |
| Ipc.EnsureStartsEngine | agent/internal/session/ipc.go:340-373 | where nobody answers and the locks are free, the steps of the client and of the engine it starts end in success with an answering engine of the client's version |
| Ipc.UpgradeReplaces | agent/internal/session/ipc.go:311-373 | an older engine without programs is replaced by one of the client's version |

## Left out

- WebSocket transport, process spawning, signals, PTY system calls, Windows pipes, tmux, downloads: only the steps they trigger appear.
- JSON encoding, schema validation, file ownership and modes, authentication secrets.
- `transfer.go`: the list, read and stat actions beyond what the other actions use; base64. A read of a whole file for hashing is one primitive. Journals are compared as records, not as JSON text; a journal being written is `Torn` until it is complete. The digest of a digest list is assumed injective.
- TransferAnswers.AcceptedIsSent: the answer a request computes counts as given, even if the process then dies before sending it.
- A crash is the agent's process dying. What a power loss does to renames and removals whose directory was never synced is not modelled.
- TransferAnswers.NewlyCommittedIsWhole: the disk is taken to be a tree, every name in the root or in a directory.
- Other programs are assumed not to touch reserved names, nor to rewrite in place a file that still has a staging name.
- Transfer.Root.Recover: sees the destination through the links other programs made, as the code does.
- The terminal emulator: a screen is a grid of opaque cells, scrolled-off lines and a cursor. Cell styles, half-visible wide glyphs, escape-sequence text other than modes, translation of mouse reports, and the byte cost by which `trimHistory` shortens the scrollback are not modelled; the scrollback may change arbitrarily.
- Render.View.Render: one viewer at a time; that viewers of one session do not share state is visible from the fields. The resize of the session that a viewer's own resize causes is a step of its own.
- The input queue of a session, its PTY writer and query replies; real time, timers and coalescing. A flush or tick may happen at any moment.
- Engine.Engine.Open: sessions and viewers are values in the engine's map, so that a viewer still points at a session that ended is not visible; applying or closing such a viewer is refused or does nothing. An entry used up by an ensure with restore stays used up when the start then fails, as in the code.
- Restore.OpenStore: saves are assumed to succeed, the clock to move on between two readings, and the file to have been written by this code.
- `Boots`: statements about a live session's entry assume that no session was opened after the helper had begun to close.
- Sizing.LegacyEngineFollowsRule: a viewer between its registration and nativeOpened is not counted among the viewers of the screen. Nothing is said about a session while the viewer in use there is on its way in or out.
- Sizing.Manager.Use: the resizes a method collects reach the engine before the next method runs.
- Names.Root.AttachNamed: generated names are assumed unused. A catalog of more than 16 names, which a death between list and save can leave, is an error until the engine is replaced, as in the code.
- Names: the endpoint file is readable whenever a generation is needed.
- Ipc.Root.Ping: which error an unanswered ping gives is left to the environment. Timeouts are steps that may happen at any moment.
- DiffPaths.PatchQuotedPath: the `\u` and `\U` escapes of Go's unquoting, which git never writes, are not read.
- `Patch`: the text comes split at its newlines.
- `output.go`: OSC strings without a semicolon lie outside the grammar of the exactness result; the scanner itself treats them as the code does.
- `AgentVersionState`, `emitScreen`, `History`, `List`, working-tree diffs, refs, heads, status, remotes and file trees: they would add only easy members.
