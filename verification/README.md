# Verified models of yurt-playground

A Dafny project that models the self-contained algorithms and protocols of the playground
and proves what they are for. Run `dafny verify dfyconfig.toml` here.

| files | what they model |
|---|---|
| `TarFormat`, `TarFields`, `TarRoundTrip`, `Tar` | the Python layer's tar encoder and decoder, byte for byte |
| `CanonicalTar` | the second writer of such archives, and the same reader on what it wrote |
| `Layer` | which files of a guest filesystem an install's layer takes |
| `ImageParts`, `Snapshot` | a file published in parts, and its verified download by many tabs over one cache |
| `Launcher` | the race of launcher processes for one claim, with crashes at any system call |
| `Cells`, `Seals` | the notebook kernel's cell queue; its periodic seals against Suspend, restart and forget |
| `Versions`, `ResolveSet`, `InstallPlan`, `TrustedRepos`, `Watchdog` | version order, the newest complete set, dependency closure, the trust file's rewrite, the install watchdog |
| `Zmtp` | ZMTP framing over a connection cut anywhere |
| `Executions`, `LlmStore`, `Prompt` | the registry of commands, the model store, the agent's prompt and loop |
| `Basics`, `Numerals`, `Orders`, `Texts` | sequences, digits, sorting, JavaScript text |

Code that updates state is modelled by methods and classes with the source's variables, each
proved against a function or stating its whole new state. An `async` function becomes one
method for each stretch between two `await`s (or, for separate processes, for each system
call), and a `Run`, `Interleave` or `Perform` method takes any schedule of them, so that
what it ensures holds in every interleaving. What the code does not control -- an answer of
the network, a failing put, a signal, the clock -- is a parameter of the step.

## What turned out not to hold

- `decodeTar(encodeTar(es)) == es` fails for a name or link target of at most 100 bytes that
  begins with a byte order mark, which the text decoder drops
  (`Tar.ByteOrderMarkIsLost`); `TarRoundTrip.RoundTripExactly` has the exact condition.
- A touched `/` captures nothing, since stripping its slash leaves the empty path
  (`Layer.RootCapturesNothing`); every other touched path captures its subtree
  (`Layer.OnlyRootIsLost`).
- `decodeZmtpFrames` also takes a message whose last frame still has the more flag, which
  `receive` waits on; `Zmtp.DecodedIsReceivedOrUnfinished` says that this is the only difference.
- A launcher's record is not always safe while it runs: the probe of its claim file counts a
  file that cannot be opened as not held, so a second launch whose open fails, and that no URL
  answers, takes it aside (`Launcher.MisledProbeTakesRecord`). Without such a probe since the
  claim was taken the record stays (`Launcher.Desktop.RecordIsItsOwn`); and with or without one
  at most one launcher runs.
- The restored cell is not always replied to first: when it finished while a Suspend stored and
  the resume brings it back running, a re-run answered from its record comes before it
  (`Cells.RecordOvertakes`). That is the only way anything is out of order
  (`Cells.AnsweredOnceInOrder`).
- A failed store leaves no head and no part at the indexes it reached, but a part a longer
  earlier download left at a higher index stays, and only such a part does
  (`LlmStore.LeftoversStay`).
- A restart does not wait for a Suspend whose seal is still out: of a seal begun before the
  restart's kill that returns after its clear, the image is stored
  (`Seals.SuspendOutlivesRestart`). With no Suspend yet to store beside it, no image from before
  the kill is left (`Seals.Worker.KilledIsGone`).
- A launch running alone claims in its first round, except exactly when a dead process with
  its own pid left the record under both names; then it takes one round more
  (`Launcher.Desktop.Solo`).
- After a forget has cleared, ticks can store again although no Suspend does after that clear:
  a Suspend that stores between the forget's flag and its clear is enough
  (`Seals.SuspendInsideForget`). Counted from the flag the claim holds
  (`Seals.Worker.StoredAfterForget`).
- A process reported Stuck that dies later can report its output twice
  (`Executions.LateExitRepeatsPeek`); `Executions.LateExit` says exactly when its report is not
  that of what was taken.

The install watchdog is only ever used with one run in flight, each awaited before the next
(src/packages.ts:1395, 1591, 1596 and 1667), and so used it never lets the ceiling be passed by
more than the floor (`Watchdog.InstallWatchdog.CeilingBound`). By itself the class promises less
for runs that overlap, which its callers never give it: `Watchdog.OverlapEscapesCeiling` and
`Watchdog.SilenceExcusesCeiling` are such runs, and `Watchdog.InstallWatchdog.UntimedExactly`
and `Watchdog.InstallWatchdog.PastCeiling` say exactly when they come about.

## Model

| member | source | states |
|---|---|---|
| TarFields.RecordLengthCountsItself | src/python_layer.ts:141-149 | the length a PAX record prints always counts its own digits, at every body length |
| TarFields.RecordPrintsItsLength | src/python_layer.ts:141-149 | a PAX record begins with the decimal of its own byte length |
| TarFields.ChecksumField | src/python_layer.ts:130-136 | a header's checksum always fits its six digits, is read back as the sum of the block with the field as spaces, and ends in a NUL and a space |
| TarFields.OctalField | src/python_layer.ts:110-129 | an octal field gives its number back if and only if the number fits the field's width |
| TarFields.TextField | src/python_layer.ts:200-204 | a text that fits its field is read back up to its first NUL and without a leading byte order mark |
| TarFields.SurvivesField | src/python_layer.ts:200-204 | the exact texts that a field gives back whole |
| TarFields.RecordMatches | src/python_layer.ts:228-231 | a record's line is read as its key and value if and only if the value has no line terminator |
| TarFields.RecordParses | src/python_layer.ts:226-233 | a written record with a one-line value adds exactly its key and value, whatever follows |
| TarRoundTrip.DecodeBlock | src/python_layer.ts:217-233 | reading one header and its data continues at the next block, where padding ends |
| TarRoundTrip.DecodeArchive | src/python_layer.ts:171-264 | padding realigns every header: an archive is read entry by entry |
| TarRoundTrip.CutIsRefused | src/python_layer.ts:222-224 | an archive that ends inside an entry's data is refused as truncated |
| TarRoundTrip.RefusedExactly | src/python_layer.ts:234-260 | an entry is refused exactly when its name has nothing between its slashes or a part of dots, or its type is none of a file's, a directory's and a link's |
| TarRoundTrip.PaxExact | src/python_layer.ts:174-186 | the reader finds a path or link record exactly for the names over 100 bytes, with their values |
| TarRoundTrip.ReadBackParts | src/python_layer.ts:234-262 | an entry comes back exactly when its numbers, its path and its link target each do |
| TarRoundTrip.SparedBack | src/python_layer.ts:174-186 | a directory name cut at its trailing slash still comes back |
| TarRoundTrip.PathLine | src/python_layer.ts:226-233 | of such a name the reader finds no path record exactly when the first line of the text has a line terminator in it and no later line reads as a path record |
| TarRoundTrip.RoundTrip | src/python_layer.ts:158-264 | every list of clean entries with fitting numbers and surviving names is read back as it was |
| TarRoundTrip.RoundTripExactly | src/python_layer.ts:158-264 | and only such lists: the exact condition for the archive of any well-formed entries to be read back |
| Tar.Put | src/python_layer.ts:122-123 | overwrites the block with the text cut to its width, and nothing else |
| Tar.Header | src/python_layer.ts:114-138 | fills a zeroed block field by field, then the checksum over it, giving the specified 512 bytes |
| Tar.PaddedParts | src/python_layer.ts:151-154 | the bytes, and zeros up to the next block only when they end inside one |
| Tar.EntryParts | src/python_layer.ts:173-194 | the parts of one entry: its PAX header when a name is too long, its header, its data |
| Tar.TarParts | src/python_layer.ts:171-198 | the parts joined are the archive |
| Tar.EncodeTar | src/python_layer.ts:158-167 | copies the parts into one array holding the archive |
| Tar.DecodeTar | src/python_layer.ts:213-264 | the cursor loop returns the entries, or the first error, of the recursive reader |
| Tar.EncodeDecode | src/python_layer.ts:158-264 | encoding into an array and decoding that array gives the entries back |
| Tar.ByteOrderMarkIsLost | src/python_layer.ts:200-204 | a clean short name beginning with a byte order mark is not read back |
| CanonicalTar.SplitPath | scripts/canonical-tree-tar.ts:105-123 | the loop over slashes from the right returns the specified cut, or nothing |
| CanonicalTar.SplitPathExactly | scripts/canonical-tree-tar.ts:105-123 | a path can be cut exactly when it is short or a slash fits; the halves are the path, cut as far right as both fields allow |
| CanonicalTar.Header | scripts/canonical-tree-tar.ts:63-102 | the array writes give the specified block, checksum last |
| CanonicalTar.ChecksumHolds | scripts/canonical-tree-tar.ts:92-93 | the checksum is six octal digits of the sum of the block with the field as spaces, then a space and a NUL |
| CanonicalTar.CompareUtf8 | scripts/canonical-tree-tar.ts:129-136 | the loop has the sign and value of lexicographic comparison of the bytes: positive exactly when, where the two first differ, the first has the greater byte or goes on alone |
| CanonicalTar.CanonicalTreeTar | scripts/canonical-tree-tar.ts:5-20 | sorts, writes and joins the chunks of a collected tree, or fails where a path fits no cut |
| CanonicalTar.ChunksExist | scripts/canonical-tree-tar.ts:105-123 | a tree is refused exactly when one of its paths cannot be cut |
| CanonicalTar.ChunkReads | src/python_layer.ts:234-259 | the layer's reader rejoins prefix and name, exactly when no field begins with a byte order mark |
| CanonicalTar.CanonicalRoundTrip | scripts/canonical-tree-tar.ts:5-103 | the layer's reader gives back the sorted tree if and only if every entry is readable |
| CanonicalTar.TreeReadBack | scripts/canonical-tree-tar.ts:5-103 | of a readable tree the reader gives each entry once, in the order of its path's bytes, with the mode of its kind, no owner, no time, and what it holds |
| CanonicalTar.Canonical | scripts/canonical-tree-tar.ts:5-20 | the archive depends on the tree alone, not on the order directories were listed in |
| Layer.InLayerAbove | src/python_layer.ts:29-46 | exclusion is closed downward: a path in the layer has every ancestor in it |
| Layer.BelongsExactly | src/python_layer.ts:29-46 | what the capture collects is exactly what belongs: absolute, not the root, touched, and in none of the nine trees |
| Layer.DirSubtree | src/python_layer.ts:83-85 | what is wanted at or beneath a directory is it and what is wanted beneath its names |
| Layer.Capture.Visit | src/python_layer.ts:72-99 | adds exactly the wanted subtree of a path, although it returns early at a path it has |
| Layer.Capture.VisitNames | src/python_layer.ts:85 | adds exactly the subtrees of a directory's names |
| Layer.CaptureLayer | src/python_layer.ts:29-104 | returns, sorted and once each, exactly the existing non-special absolute paths other than the root that are at or beneath a touched path and neither at nor beneath any of the nine trees kept out |
| Layer.CaptureOfSet | src/python_layer.ts:70-104 | the order and repetition of the touched paths make no difference |
| Layer.OnlyRootIsLost | src/python_layer.ts:100 | the layer of one touched path holds what is wanted at or beneath it if and only if the path is not the root |
| Layer.RootCapturesNothing | src/python_layer.ts:100 | a touched root alone gives an empty layer, whatever is there |
| Layer.RootAddsNothing | src/python_layer.ts:70-104 | beside other touched paths the root makes no difference |
| ImageParts.RangesTile | src/image_parts.ts:24-47 | the ranges exist exactly below the count, begin where the one before ends, start at 0 and end at the size |
| ImageParts.SlicesJoin | src/image_parts.ts:38-47 | a file's slices, joined, are the file |
| ImageParts.JoinedParts | src/sandbox_snapshot.ts:494-507 | parts of the layout's lengths that join to a file are that file's slices |
| ImageParts.SameLayout | src/sandbox_snapshot.ts:494-507 | two layouts with as many parts and one part of equal length cut the file alike |
| ImageParts.PartsStream.Ask | src/image_parts.ts:99-146 | asks for the next part once, and unchecked for the one after it too |
| ImageParts.PartsStream.Read | src/image_parts.ts:127-135 | hands on the open body's next chunk |
| ImageParts.PartsStream.Open | src/image_parts.ts:140-159 | takes the next part's response: to be streamed, or checked whole and handed on, or refused |
| ImageParts.PartsStream.Pull | src/image_parts.ts:122-161 | hands on the next chunk, closes after the last part, or fails at the first part missing or refused |
| ImageParts.PartsStream.InFlight | src/image_parts.ts:92-161 | each part is requested once, in order; at most two are under way, and one when checked |
| ImageParts.PartsStream.ReadAll | src/image_parts.ts:73-167 | reading on gives all bodies in order exactly when each is there and accepted, else those before the first that is not |
| ImageParts.SlicedAndStreamed | src/image_parts.ts:38-167 | slicing a file by the ranges and reading the stream of the answers to its end gives the file, exactly when every slice is there |
| Snapshot.AcceptedIsSlice | src/sandbox_snapshot.ts:517-566 | cached bytes of the right length and digest are the file's slice in this layout, though the marker does not name its own |
| Snapshot.PartsVerify | src/sandbox_snapshot.ts:609-636 | the digests of parts that passed the whole hash verify the file |
| Snapshot.Visit.AskMore | src/sandbox_snapshot.ts:592-603 | asks for parts in order until three are pending or none is left |
| Snapshot.Visit.Fetch | src/sandbox_snapshot.ts:567-571 | part `at` is asked of the site, and noted |
| Snapshot.Visit.Match | src/sandbox_snapshot.ts:555-562 | takes up a cached part only on a verified visit and when its length is right, and else asks the site |
| Snapshot.Visit.HashFound | src/sandbox_snapshot.ts:562-566 | takes a cached part when its digest is the marker's, else fetches it |
| Snapshot.Visit.Respond | src/sandbox_snapshot.ts:568-579 | a failed answer or a wrong length loses the part; whether each body taken was the pinned file's part is kept track of |
| Snapshot.Visit.HashFetched | src/sandbox_snapshot.ts:580-583 | notes the digest and the key, and puts the part unless the visit stopped |
| Snapshot.Visit.PutLands | src/sandbox_snapshot.ts:583 | the put changes this part's key alone, or fails |
| Snapshot.Visit.PutEnds | src/sandbox_snapshot.ts:584-587 | after its put, a visit that stopped deletes the part again |
| Snapshot.Visit.DeleteAgain | src/sandbox_snapshot.ts:585 | deletes what a stopped visit put |
| Snapshot.Visit.Pull | src/sandbox_snapshot.ts:609-627 | awaits the next part in order; at the end marks exactly when hash and length are the pin's, else rejects |
| Snapshot.Visit.Resolve | src/sandbox_snapshot.ts:628-645 | hands on the awaited part and asks for more, or fails and stops |
| Snapshot.Visit.MarkerLands | src/sandbox_snapshot.ts:628-631 | the marker written holds the digests of the file's own slices |
| Snapshot.Visit.Cancel | src/sandbox_snapshot.ts:651-654 | stops the visit and starts dropping what it put |
| Snapshot.Visit.DropForPull | src/sandbox_snapshot.ts:534-551 | drops, after a passed hash, all but this layout and its marker; after a failed one all of this snapshot; else what was put here |
| Snapshot.Visit.DropForCancel | src/sandbox_snapshot.ts:548-551 | drops what this visit put and nothing else |
| Snapshot.Visit.SweptForPull | src/sandbox_snapshot.ts:615-640 | the stream closes only after a passed hash, else errors |
| Snapshot.Visit.CachedIsSlice | src/sandbox_snapshot.ts:552-590 | a part taken from the cache is exactly the pinned file's slice at its index |
| Snapshot.Visit.ClosedIsTheFile | src/sandbox_snapshot.ts:609-641 | a closed stream gave the pinned file, of the pinned length |
| Snapshot.Visit.WindowHolds | src/sandbox_snapshot.ts:591-650 | each part is requested at most once, at most three are under way, and they are handed on in order |
| Snapshot.Visit.StoppedLeavesNothing | src/sandbox_snapshot.ts:541-551 | a stopped and settled visit left nothing it put |
| Snapshot.Visit.DeliveredBeginsTheFile | src/sandbox_snapshot.ts:591-650 | while the site was honest with a visit, what it delivered is at every point how the pinned file begins |
| Snapshot.Visit.HashPasses | src/sandbox_snapshot.ts:609-636 | and its hash passes at the end, whatever the cache held |
| Snapshot.Visit.ReadToEnd | src/sandbox_snapshot.ts:591-650 | from wherever any schedule left a visit that was not cancelled and has lost no part: with a site honest so far and from here on, reading on gives the whole pinned file and the stream closes, whatever parts the cache holds |
| Snapshot.Visit.FromCache | src/sandbox_snapshot.ts:555-566 | on a visit whose marker has the slice's digest, a slice that is in the cache is taken from there, and the site is not asked |
| Snapshot.Visit.ClosedLeavesAll | src/sandbox_snapshot.ts:534-583 | a visit that closed, no put and no marker having failed and nobody else writing, leaves every slice in the cache and a marker with their digests |
| Snapshot.VisitOnce | src/sandbox_snapshot.ts:467-656 | a visit alone with the cache keeps what it had, found and put there, through any moves; and closed, no delete having failed, leaves nothing but this snapshot's parts in this layout and its marker |
| Snapshot.VisitAgain | src/sandbox_snapshot.ts:467-656 | after such a visit closed, a second one asks the site for nothing, through any moves but a failing look into the cache, and reads to the end and gives the whole file unless cancelled |
| Snapshot.Interleave | src/sandbox_snapshot.ts:467-656 | in every schedule of visits, tabs and junk at part keys, all of the above hold of every visit |
| Launcher.Desktop.LockLook | src/desktop.ts:169-186 | the state lock is taken only while free |
| Launcher.Desktop.OpenFile | src/desktop.ts:352-359 | opens the record, or finds none |
| Launcher.Desktop.TryShared | src/desktop.ts:248-324 | the probe is refused exactly while a launcher has the claim; a claim file it cannot open counts as not held |
| Launcher.Desktop.JudgeRecord | src/desktop.ts:370-395 | a record names a running launcher when its claim is held or its URL answers, else it is stale; a probe misleads exactly when it could not open a claim file that is held and the record is judged stale |
| Launcher.Desktop.MoveRecord | src/desktop.ts:285-291 | renames the state file aside |
| Launcher.Desktop.CompareAside | src/desktop.ts:292-294 | another text than the one judged is linked back |
| Launcher.Desktop.TryExclusive | src/desktop.ts:226-235 | the claim is refused exactly while another launcher has it; a claim file that cannot be opened ends the launch; whatever misled before, a claim taken is as safe as any |
| Launcher.Desktop.StageRecord | src/desktop.ts:190-199 | writes the booting record under a name of its own, into the file there if there is one |
| Launcher.Desktop.LinkRecord | src/desktop.ts:238-246 | the link appears only where no state file is |
| Launcher.Desktop.UnlockClaimed | scripts/desktop.ts:102-130 | a won claim boots, a lost one looks again for some rounds, a broken one ends |
| Launcher.Desktop.RenameServing | src/desktop.ts:267-278 | the serving record replaces the booting one in one step |
| Launcher.Desktop.ReadOwnRecord | src/desktop.ts:400-408 | an exiting launcher finds its own record there |
| Launcher.Desktop.RemoveOwnRecord | src/desktop.ts:400-408 | and removes it |
| Launcher.Desktop.Die | src/desktop.ts:207-211 | a process that ends loses its locks and leaves its files |
| Launcher.Desktop.OneLauncher | scripts/desktop.ts:92-136 | at most one process boots or serves |
| Launcher.Desktop.RecordIsItsOwn | src/desktop.ts:201-296 | from a launcher's link until its exit the state file holds the record it wrote, unless since its claim a probe that could not open the claim file had it judged stale |
| Launcher.Desktop.ProbesDoNotRefuse | src/desktop.ts:316-324 | no shared lock is held when a claim is tried |
| Launcher.Desktop.StaleOnly | src/desktop.ts:280-296 | but for such a probe, a record is taken aside only while nobody has the claim |
| Launcher.Desktop.Run | src/desktop.ts:169-408 | in every run of any processes, with deaths at any system call, the claims above hold, the two on records unless such a probe misled since the claim was taken |
| Launcher.Desktop.LookAlone | src/desktop.ts:331-396 | alone, with dead URLs silent, a look removes the record left, unless it is under both names |
| Launcher.Desktop.Solo | scripts/desktop.ts:102-136 | a launch alone, whatever the dead left, boots with its record in place, in this round, or in the next if and only if the state file and its own aside name lead to one file |
| Launcher.Desktop.LookBlindly | src/desktop.ts:248-296 | a look whose probe cannot open a held claim file, and that no URL answers, moves the record aside |
| Launcher.MisledProbeTakesRecord | src/desktop.ts:248-296 | a run in which a probe that cannot open the claim file takes a running launcher's record away |
| Cells.FittedIsEnd | src/notebook_kernel_worker.ts:336-348 | what is kept of a cell's output is its end, within the limit, all of it when it fits |
| Cells.KeptIsEnd | src/notebook_kernel_worker.ts:325-349 | what is kept while chunks come is the end of all that was said, in order, joined chunks or not |
| Cells.AnsweredOnceInOrder | src/notebook_kernel_worker.ts:492-614 | in an epoch, begun by a boot, a restore or a resume, the replied, current and queued requests are always those it began with and then the accepted ones, each once, in order; the orphan comes first, or second when the first request was answered from the record of a cell the resume brought back; the guest has at most one unanswered exec frame |
| Cells.AnsweredOnce | src/notebook_kernel_worker.ts:492-614 | from any state at all, each request there was and each accepted is exactly once replied to, current or queued, but one whose place a re-run took |
| Cells.RecordOvertakes | src/notebook_kernel_worker.ts:290-317 | and that first request is then replied to while the orphan still runs |
| Cells.AllFailedAnswersAll | src/notebook_kernel_worker.ts:737-760 | when the guest is replaced everything the epoch began with or accepted has been replied to, in that order |
| Cells.RerunIsNotRunAgain | src/notebook_kernel_worker.ts:222-317 | a first re-run of the restored cell is bound to it while it waits, or answered once from the record, and the guest never gets it again |
| Cells.CellAnswered | src/notebook_kernel_worker.ts:507-614 | a cell the guest gets, whatever lines it writes before the done frame: its notebook sees it begin, then exactly its output, in order, unless it is silent, then one reply with the done frame's count and the last trouble since it began, if any; what follows is for the cells behind |
| Cells.CellUnreached | src/notebook_kernel_worker.ts:521-535 | a cell the guest cannot be given has its failure as its output and its answer |
| Cells.RecordAnswers | src/notebook_kernel_worker.ts:238-317 | a restored cell that finished unclaimed is answered, when its code is asked for next, with the count of its done frame, its last trouble and the kept end of its output |
| Cells.RebindShows | src/notebook_kernel_worker.ts:353-376 | a re-run bound to the running cell sees it begin and the kept output so far |
| Cells.AllFailedSays | src/notebook_kernel_worker.ts:737-760 | each cell in flight, in order, is told that the kernel restarted, and why |
| Cells.RunNextKeeps | src/notebook_kernel_worker.ts:507-536 | running the next cell, through any number that do not reach the guest, keeps order and count |
| Cells.FromRecordLine | src/notebook_kernel_worker.ts:290-317 | a re-run answered from the record is replied to at once, before what is in flight |
| Cells.AnyChunks | src/notebook_kernel_worker.ts:708-734 | the guest's output comes to the same however it is cut into chunks |
| Cells.LineHeedless | src/notebook_kernel_worker.ts:711-733 | what a line does is independent of what of the next is there |
| Cells.Notebook.ClearRebind | src/notebook_kernel_worker.ts:238-258 | records a cell that finished unclaimed, and says whether it can be answered |
| Cells.Notebook.Replay | src/notebook_kernel_worker.ts:261-287 | sends the recorded output in order |
| Cells.Notebook.Rebind | src/notebook_kernel_worker.ts:353-376 | takes over the running cell exactly when it waits and the code is the same |
| Cells.Notebook.AnswerCompleted | src/notebook_kernel_worker.ts:290-317 | answers a finished cell from the record exactly when the code is the same, and forgets it either way |
| Cells.Notebook.RememberOutput | src/notebook_kernel_worker.ts:325-349 | joins chunks of one stream and cuts the tail from the front to the limit |
| Cells.Notebook.EnqueueExecute | src/notebook_kernel_worker.ts:492-504 | rebinds, answers from the record, or queues and runs |
| Cells.Notebook.RunNextCell | src/notebook_kernel_worker.ts:507-536 | hands the guest the next cell; on a dead pty fails it and goes on, and terminates |
| Cells.Notebook.HandleFrame | src/notebook_kernel_worker.ts:547-614 | output, error or the cell's answer, of a frame the guest sent |
| Cells.Notebook.HandleLine | src/notebook_kernel_worker.ts:715-732 | a blank line, a frame, or text written around the protocol |
| Cells.Notebook.OnGuestOutput | src/notebook_kernel_worker.ts:708-734 | handles the whole lines in order and keeps the rest |
| Cells.Notebook.FailAllCells | src/notebook_kernel_worker.ts:737-760 | refuses current and queued in order and empties the queue |
| Seals.Worker.SealTick | src/notebook_kernel_worker.ts:655-668 | a tick begins, or is noted for when the one in flight is over |
| Seals.Worker.TickSealed | src/notebook_kernel_worker.ts:676-682 | the image is stored only if the sandbox is the same one, not forgotten, not restarted |
| Seals.Worker.TickStored | src/notebook_kernel_worker.ts:683-693 | the store holds the tick's image unless its put failed |
| Seals.Worker.TickEnds | src/notebook_kernel_worker.ts:660-666 | a tick asked for meanwhile begins |
| Seals.Worker.Suspending | src/notebook_kernel_worker.ts:1116-1121 | waits for a tick in flight, else seals unless a seal is under way |
| Seals.Worker.SuspendEnds | src/notebook_kernel_worker.ts:1138-1159 | a stored Suspend ends the sandbox and lets ticks store again |
| Seals.Worker.Forgetting | src/notebook_kernel_worker.ts:1368-1371 | sets the flag and waits for a tick in flight |
| Seals.Worker.Restarting | src/notebook_kernel_worker.ts:1200-1221 | counts the kill and waits for a store in flight |
| Seals.Worker.RestartClears | src/notebook_kernel_worker.ts:1222 | empties the store, or fails |
| Seals.Worker.OneSeal | src/notebook_kernel_worker.ts:670-705 | no two seals are ever in flight together |
| Seals.Worker.KilledIsGone | src/notebook_kernel_worker.ts:1214-1222 | once a restart's clear is done, no image of a tick sealed before its kill is in the store or on its way, and no image at all unless a Suspend had its own yet to store when the restart was asked |
| Seals.Worker.ForgottenStays | src/notebook_kernel_worker.ts:629-631 | until a Suspend stored since the flag, no tick stores but one waited for, and after the clear the store has no tick's image |
| Seals.Worker.StoredAfterForget | src/notebook_kernel_worker.ts:1368-1372 | a tick stores after a forget cleared only if a Suspend stored since the forget was asked; and if none did before the clear, only if one did since it |
| Seals.Worker.Run | src/notebook_kernel_worker.ts:616-1239 | the claims hold for any messages and any order of their awaits |
| Seals.SuspendInsideForget | src/notebook_kernel_worker.ts:1116-1160 | a run in which ticks store after a forget's clear with no Suspend after it |
| Seals.SuspendOutlivesRestart | src/notebook_kernel_worker.ts:1200-1239 | a run in which a Suspend begun before a restart stores after its clear |
| Versions.VersionsFlip | src/packages.ts:175-203 | swapping the arguments swaps the sign |
| Versions.VersionsTransitive | src/packages.ts:175-203 | the comparison is transitive, strictly when either step is strict |
| Versions.ReleasesFlip | src/packages.ts:211-214 | releases compare with opposite signs both ways round |
| Versions.ReleasesTransitive | src/packages.ts:211-214 | and transitively, by version and then build |
| Versions.CompareVersionsLoop | src/packages.ts:175-203 | the two loops over padded positions compute that comparison, positive exactly for a version above and negative exactly for one below |
| Versions.ParseBack | src/packages.ts:176-182 | the text of numbers with dots, a dash and identifiers, and a plus and anything, is read as those numbers and identifiers |
| Versions.BuildBack | src/packages.ts:206-209 | `yurt_N` counts as N |
| Versions.VersionsByPosition | src/packages.ts:184-203 | a version is above another exactly when its number is greater at the first position that differs, zeros filling the shorter; or with equal numbers it is the release of a pre-release; or at the first identifier that differs a number is below any other, the greater number above, and the longer list above its beginning |
| Versions.ReleasesByPosition | src/packages.ts:211-214 | and a release above another exactly when its version is, or at one version its build number is greater |
| Versions.ReduceIsMaximum | src/packages.ts:221 | no element is greater than what the fold returns |
| Versions.ReduceIsFirst | src/packages.ts:221 | and of equals it is the first |
| Versions.LatestIsGreatest | src/packages.ts:218-223 | of the releases not yanked none is above the latest one, and it is missing exactly when all are yanked |
| ResolveSet.ResolveIsNewest | src/packages.ts:1006-1068 | the set is of the highest build in which every member has a release that is not yanked, can be fetched and is the installed one where one is, each at a release none of those is above; it throws exactly when there is no such build |
| ResolveSet.ResolvePins | src/packages.ts:1056-1068 | what is returned is each name with its release's version, build, lower-cased digest, size and URL |
| ResolveSet.PinnedMember | src/packages.ts:1022-1056 | a member pinned to its resolved release resolves to it and to no other build |
| ResolveSet.PinningKeepsSet | src/packages.ts:1006-1068 | pinning any of the resolved members at their releases resolves to the same set |
| InstallPlan.Planner.Visit | src/packages.ts:1625-1633 | the recursion ends on any graph and sees exactly what the closure needs |
| InstallPlan.RelayedInstallPlan | src/packages.ts:1618-1636 | the plan has, each once and with its latest release, exactly the names reached from the given one along the latest releases' dependencies through packages that are not installed and have a release; these are the least closed set |
| InstallPlan.StopsAtInstalled | src/packages.ts:1626 | what is reached only through an installed package is not planned |
| TrustedRepos.RepoTables | src/packages.ts:231-254 | the loop over lines reads the tables, or refuses the file |
| TrustedRepos.RelayTrustedRepos | src/packages.ts:308-335 | rewrites the url lines of the first package table, or leaves the file alone |
| TrustedRepos.UrlLines | src/packages.ts:328 | a readable line is rewritten exactly when it sets the url |
| TrustedRepos.LineExactly | src/packages.ts:233-250 | a line is read as a setting exactly when, trimmed, it is a key, an equals sign and a plain string or an integer, with white space between and maybe a comment after |
| TrustedRepos.RefusedExactly | src/packages.ts:241-246 | a file is refused exactly when a line of it is unreadable or a setting of no table |
| TrustedRepos.TableIsRead | src/packages.ts:233-252 | a header begins a table, whose lines are the settings up to the next, and whose value of a key is that of its last line |
| TrustedRepos.PackageExactly | src/packages.ts:289-298 | a table is the package repository's exactly when its url is the relay's or has the owner and the repository as neighbouring segments |
| TrustedRepos.RewriteReads | src/packages.ts:324-334 | reading the rewritten lines gives the original tables with the target's url at the relay |
| TrustedRepos.RelayPreservesMeaning | src/packages.ts:300-346 | the result parses to the original tables with only the first package table's url changed; it trusts the relay; a second rewrite does nothing |
| TrustedRepos.LeftAlone | src/packages.ts:300-323 | the file is left alone exactly when it cannot be read, names no package table, or has the first one at the relay |
| Watchdog.InstallWatchdog.Check | src/packages.ts:1174-1209 | gives the verdict due, or arms the timer for when there could next be one |
| Watchdog.InstallWatchdog.WaitsForLimit | src/packages.ts:1196-1204 | the timer is for the soonest that a limit could be met, and not sooner than the floor |
| Watchdog.InstallWatchdog.StartWatched | src/packages.ts:1217-1222 | starts the ceiling's clock and checks at once |
| Watchdog.InstallWatchdog.EndWatched | src/packages.ts:1223-1228 | stops the ceiling's clock |
| Watchdog.InstallWatchdog.EndUnwatched | src/packages.ts:1230-1238 | the end of an unwatched run counts as being heard from |
| Watchdog.InstallWatchdog.Fire | src/packages.ts:1203-1209 | a timer's callback gives the verdict or leaves a later timer pending |
| Watchdog.InstallWatchdog.IdleBound | src/packages.ts:1160-1209 | with no unwatched run the idle limit is never passed by more than the floor without a verdict |
| Watchdog.InstallWatchdog.CeilingBound | src/packages.ts:1183-1209 | nor, with one run in flight at a time, the ceiling of a run the host can watch |
| Watchdog.InstallWatchdog.PastCeiling | src/packages.ts:1183-1195 | a check past the ceiling gives no verdict if and only if nothing was heard for the stall window and an unwatched run is in flight |
| Watchdog.InstallWatchdog.CeilingUnlessExcused | src/packages.ts:1183-1209 | with runs of any mix, the ceiling of the run timed is passed by more than the floor only after such a check |
| Watchdog.InstallWatchdog.UntimedExactly | src/packages.ts:1217-1228 | a watched run is in flight with none timed if and only if another watched run ended beside it |
| Watchdog.InstallWatchdog.Run | src/packages.ts:1160-1238 | the claims hold after any starts, ends, signs of life and stretches of time; runs given one at a time stay alone |
| Watchdog.Silence | src/packages.ts:1191-1209 | silence alone always ends in a verdict, within the floor of the idle limit |
| Watchdog.HeardThroughout | src/packages.ts:1180-1190 | a run heard from throughout ends in the ceiling's verdict, whatever runs beside it |
| Watchdog.OverlapEscapesCeiling | src/packages.ts:1217-1228 | two overlapping watched runs, which its callers never start, escape the ceiling |
| Watchdog.SilenceExcusesCeiling | src/packages.ts:1183-1195 | a silent watched run beside an unwatched one, which its callers never start, passes its ceiling |
| Zmtp.FrameBack | src/jupyter_transport.ts:43-56 | an encoded frame is whole and holds its frame and flag, on both sides of the 255-byte switch |
| Zmtp.FrameOnWire | src/jupyter_transport.ts:43-56 | a short frame begins with 1 when more follow, else 0, and its length; a long one with 2 more, and its length in eight bytes, the greatest first; neither has the command flag |
| Zmtp.ReceiveEncoded | src/jupyter_transport.ts:244-254 | receiving gives an encoded message back and leaves what follows |
| Zmtp.DecodeEncoded | src/jupyter_transport.ts:40-80 | every encoded message is decoded to itself |
| Zmtp.DecodeReceived | src/jupyter_transport.ts:60-80 | what is received is decoded to the same when nothing follows, and refused as trailing when something does |
| Zmtp.DecodedIsReceivedOrUnfinished | src/jupyter_transport.ts:60-80 | the decoder alone also takes the beginning of an unfinished message, and nothing else |
| Zmtp.EncodeZmtpMessage | src/jupyter_transport.ts:40-58 | writes the message's frames, and refuses an empty one |
| Zmtp.DecodeZmtpFrames | src/jupyter_transport.ts:60-80 | the cursor loop decodes the message or gives its error |
| Zmtp.NativePort.Read | src/native.ts:200-216 | at most `n` bytes of the stream, in order, empty only at its end |
| Zmtp.NativePort.ReadExactly | src/jupyter_transport.ts:314-327 | exactly that many bytes, or the connection's end |
| Zmtp.NativePort.ReceiveMessage | src/jupyter_transport.ts:244-254 | the next message off the connection, or its error |
| Zmtp.NativePort.ReadMessages | src/jupyter_transport.ts:299-312 | every message the connection gives, until it ends |
| Zmtp.AnyChunking | src/jupyter_transport.ts:244-327 | however the encodings are cut into socket messages, the reader gets the messages back in order |
| Zmtp.WriteProperty | src/jupyter_transport.ts:261-275 | writes one property after what is there, and returns where the next goes |
| Zmtp.EncodeZmtpReady | src/jupyter_transport.ts:23-38 | the body is filled to its last byte |
| Zmtp.ReadyIsRead | src/jupyter_transport.ts:23-38 | the command is read back as READY, and its body is that name and the two properties, byte for byte |
| Executions.BoundedCapture.Push | src/executions.ts:245-260 | keeps the first `limit` bytes of all pushed, truncated exactly when there were more |
| Executions.BoundedCapture.ToBytes | src/executions.ts:261-269 | copies out what is kept |
| Executions.PushesJoin | src/executions.ts:237-270 | pushing piece by piece comes to pushing it all at once |
| Executions.Registry.Active | src/executions.ts:330-336 | counts what is starting and every process whose end is not recorded |
| Executions.Registry.Spawn | src/executions.ts:338-357 | refuses exactly when sixteen are starting, running or stuck |
| Executions.Registry.Spawned | src/executions.ts:351-384 | a start becomes an execution in the map, or nothing |
| Executions.Registry.Poll | src/executions.ts:403-437 | takes output; past the deadline kills once; past the grace of a SIGKILL reports stuck |
| Executions.Registry.PeekReturns | src/executions.ts:427-450 | the Stuck report: what was taken and what a peek shows beyond it |
| Executions.Registry.DiesLate | src/executions.ts:442-449 | a stuck process that dies becomes an exit |
| Executions.Registry.Drained | src/executions.ts:456-473 | the exit is reported once every kill sent has settled |
| Executions.Registry.Kill | src/executions.ts:555-570 | a signal goes to what runs, as one unsettled kill more, and none to what has exited or whose leader has |
| Executions.Registry.EndWait | src/executions.ts:515-524 | returns the outcome, and drops an execution only when that is not a Stuck report |
| Executions.Registry.Expire | src/executions.ts:572-582 | drops only exited executions, read or past their time |
| Executions.Registry.Perform | src/executions.ts:302-583 | in any order of calls at most sixteen are active, every unended process is in the map, states only age, and exits report the first `limit` bytes of all takes |
| Executions.LateExit | src/executions.ts:427-449 | a late exit reports the first `limit` bytes of what was taken if and only if what the peek showed goes unseen: it showed nothing more, or what was taken alone passes the limit and begins no differently with it |
| Executions.LateExitRepeatsPeek | src/executions.ts:427-449 | so the same output can be reported twice |
| LlmStore.PartKeysDiffer | src/llm_store.ts:41-43 | no two parts share a key, and none has the model's own |
| LlmStore.ReadModel | src/llm_store.ts:47-66 | the parts in order, or nothing when the head or a part is missing |
| LlmStore.HeadFindsParts | src/llm_store.ts:47-66 | a head that counts the parts held finds them whole |
| LlmStore.ModelExactly | src/llm_store.ts:47-66 | a model is found exactly when its entry holds it, or counts parts that are all there, and then it is those joined |
| LlmStore.ModelWriter.Cut | src/llm_store.ts:84-98 | takes exactly the first bytes pending, however chunked, and terminates on empty chunks |
| LlmStore.ModelWriter.Flush | src/llm_store.ts:83-101 | stores one part; stored parts and pending are still what was read |
| LlmStore.ModelWriter.Add | src/llm_store.ts:107-113 | cuts whole parts while there are any |
| LlmStore.ModelWriter.Finish | src/llm_store.ts:115-120 | the last, shorter part and then the head make the model readable |
| LlmStore.ModelWriter.Forget | src/llm_store.ts:121-129 | removes every part up to the one that failed, and the head |
| LlmStore.ModelWriter.Store | src/llm_store.ts:69-131 | the whole body is found after the last put and at no earlier point, and no run, failed or not, ever makes a part of it found; parts are all of `partBytes` but the last; a failure leaves the cache without its entries |
| LlmStore.LeftoversStay | src/llm_store.ts:121-129 | of the parts an earlier download left, a failed one leaves exactly those at indexes it did not reach |
| Prompt.BuildPrompt | src/agent.ts:155-184 | the loop from the latest turn back builds the specified prompt |
| Prompt.KeptIsLongestSuffix | src/agent.ts:166-181 | the turns shown are the longest suffix the budget allows, or the start of the latest alone |
| Prompt.NoteCountsOmitted | src/agent.ts:155-184 | the whole prompt: the task, a note naming exactly the turns not shown if there are any, and the longest suffix the budget allows, or the start of the latest, each with its step, reply and result |
| Prompt.PromptFitsExactly | src/agent.ts:150-184 | the prompt fits if and only if the task line and the reserved note do |
| Prompt.RunAgent | src/agent.ts:51-287 | every run ends once, within its steps, and its events are exactly those of the replies up to the one that ends it, each step's prompt that of the turns before; with roomy limits, as the default ones are, no prompt is too long |
| Prompt.EndsAsReplied | src/agent.ts:224-287 | a run not cancelled ends with an answer, an error, too many invalid replies or the end of its steps, exactly as the first reply that ends it is an answer, an error, one invalid reply too many in a row, or there is none |

## Left out

- Tar text is its UTF-8 bytes: sequences the decoder would replace (invalid, or cut in the middle of a character) and the trimming of non-ASCII white space in number fields are not modelled; mtimes are whole seconds; no array is longer than its size field holds.
- TarRoundTrip.RoundTripExactly: a name whose 100-byte cut splits a character, where the decoder puts a substitute, is outside the model.
- Layer.CaptureLayer: file contents are read as `stat` and `readFile` of one unchanging tree; a tree that changes during the capture is not modelled.
- CanonicalTar.CanonicalTreeTar: collecting the tree from disk, and its refusals there, are a precondition; paths and targets are bytes.
- `layerKey`, gzip, the layer's own cache and `installWithLayer`: hashing and I/O around what is modelled.
- Snapshot.Interleave: SHA-256 is injective, and a marker that is not an array of strings counts as none; other code writing markers is not modelled, and an aborted fetch may still answer.
- `decodeSandboxSnapshot` and the zip reader behind the stream.
- `imagePartsManifest`'s names, `imagePartIndex`, and cancelling a `partsFetch` stream.
- Launcher.Desktop.Run: a death drops all of a process's locks at once, writes are whole, nobody else edits the state file, and the host process is not modelled.
- Cells.AnsweredOnceInOrder: an epoch ends with `failAllCells`; cells queued while suspended are lost when a restore overwrites the queue. Text is UTF-16 units (chunks are decoded one by one in the code), `JSON.parse` is a parameter, and control requests answered locally are left out.
- Seals.Worker.Run: the guest, the kernel host and the images' bytes; `sealEveryMs` is taken as positive; a store and a clear may land in any order, though IndexedDB takes those issued one after the other in turn.
- Versions.CompareVersionsLoop: numbers are unbounded, so the rounding of version numbers past 2^53 is not modelled.
- ResolveSet.ResolveIsNewest: `checkRelease` is a field of the release, and only the release, not its lower-cased digest, is returned.
- TrustedRepos.RelayPreservesMeaning: values are a map, so JavaScript's `__proto__` key is not modelled; `browserTrustedRepos` is left out.
- Watchdog.InstallWatchdog.IdleBound: timers are prompt, the clock never going back or past a pending timer; what the install itself does is not modelled.
- Zmtp.AnyChunking: the greeting, security and JSON of the Jupyter messages; a socket error counts as the end.
- Executions.Registry.Perform: the clock is a choice made at each poll; `waitRaw`, exit statuses and signal names are left out; decoding output as text too.
- LlmStore.ModelWriter.Store: the lock around it, and a key that already has a head.
- Prompt.BuildPrompt: a character stands for a UTF-16 unit, so a cut inside a surrogate pair is not told apart.
- Prompt.RunAgent: parsing replies, cancellation and the timeout; a model or tool that throws.
- Terminal, page, HTTP and authentication code; shell scripts built as strings.
