# Astra Voice: a verified model of its hard algorithms and protocols

This Dafny project models the parts of the Astra Voice repository whose correctness cannot be read
off one function body: dynamic programming, provenance checks, a loader closure, stream readers,
step protocols and timeline arithmetic. Each module stands for one piece of the repository; objects
that update their fields are classes, loops are loops, and every such method is proved against a
function or predicate about which the general laws are then proved.

`dafny verify dfyconfig.toml` checks all of it. Every induction is written out: where Dafny would
try one of its own, the lemma carries `{:induction false}`.

## Modules

- `WordErrors.dfy`: the row-by-row edit distance. The running minimum of `row - j` is the
  left-to-right recurrence; the recurrence is the cheapest edit script; the metric laws follow by
  inverting and composing scripts.
- `GitTree.dfy`, `GitOrder.dfy`, `GitArchive.dfy`: a git tree hash rebuilt from a flat path map, the
  order and format of the bytes hashed, and the path map rebuilt from an archive and a delta.
- `Clearsigned.dfy`: the clearsigned-file check and the extractor that has to agree with it (section
  7.1 of RFC 4880).
- `LoaderClosure.dfy`, `LoaderRules.dfy`, `LoaderTermination.dfy`: the memoised walk over objects and
  inherited RPATH chains, the loader's rules that it keeps, and when it ends.
- `SourceArchive.dfy`, `SourceArchiveRules.dfy`, `XzReader.dfy`: the source archive's builder and checker,
  what an accepted archive is, and the reader of concatenated XZ streams (section 2.2 of the .xz File
  Format).
- `SubmitServer.dfy`, `SubmitRuns.dfy`, `SubmitFates.dfy`, `ProgramUpdates.dfy`, `ProcessOwner.dfy`,
  `Hotkey.dfy`, `HotkeyTimes.dfy`: step protocols, each as an object whose methods are steps of a state
  function, with invariants over every run and laws that read each answer off the events before it.
- `Sampler.dfy`, `SamplerRows.dfy`, `CpuMean.dfy`: conservation and telescoping of CPU accounts, and what
  each row of the profile holds.
- `MeetingSegments.dfy`, `QuietRanges.dfy`, `RecordedAxis.dfy`, `Coverage.dfy`, `BeepFit.dfy`:
  segments and their clock knots, quiet sample ranges, recorded time, observed coverage, and the
  least-squares line through beep errors.
- `Strings.dfy`, `Sums.dfy`, `ClockKnots.dfy`, `Basics.dfy`: splitting and joining text, sums over
  finite maps, clock knots, and shared types.

## Assumptions

- Python integers and floats are mathematical integers and reals; rounding is not modelled.
- A hash function is a parameter. Where a law needs it not to collide, only the values hashed for
  the inputs of that law are required to have distinct hashes (no function into twenty bytes is free
  of collisions altogether).
- Sockets, `/proc`, the X server, D-Bus, `tarfile`, `lzma` and Qt are replaced by their answers. Time
  is an input that does not run backwards. Every interleaving of callbacks is allowed, including
  repeated and late ones. The kernel rules assumed for process numbers are `ProcessOwner.Allowed`.
- `sorted` is any rearrangement that is in order; where a result must not depend on the order, any
  rearrangement at all is allowed.

## Where code and promise part

- `check_needed` says that every needed name of every object resolves. What it checks are the objects
  its walk reaches from the roots. With a clean report every need is met exactly when every object
  that has needs, and whose own name is needed, is loaded by something visited
  (`LoaderClosure.CleanReportMeetsEveryNeedIff`). Objects that only need one another are not, nor is
  an object hidden from every search by another of its name (`LoaderClosure.RootlessCycleIsNotChecked`,
  `LoaderClosure.ShadowedCopyIsNotChecked`).
- The recursion of `check_needed` ends exactly when the walk never comes back to an object that sees
  the same directories, repetitions aside, with a longer chain; equally, when some rank falls with
  every RPATH added (`LoaderTermination.WalkEndsIff`). A visited object that loads itself and adds an RPATH never
  stops (`LoaderTermination.SelfLoadNeverEnds`), but an RPATH on a cycle of loads alone decides nothing:
  it may bring in an object that breaks the cycle (`LoaderTermination.ShadowedCycleEnds`).
- `strip_pgp` splits lines with `splitlines`, `check_clearsigned` at `\n`. If `splitlines` sees neither an
  empty line nor the signature marker inside the `Hash` headers, they see the same signed text exactly
  when the text holds no other line break (`Clearsigned.ExtractorAgreesIffBreakFree`). Otherwise
  unsigned header text comes out before the text or instead of it (`Clearsigned.HeaderTextComesOut`,
  `Clearsigned.HeadersHideText`, `Clearsigned.UnsignedLineComesOut`);
  `Clearsigned.ExtractorAgreesIff` is the condition for every accepted file.
- `_tree_hash` reports a path that is both a file and a directory exactly when the file comes first
  (`GitTree.ConflictIffFileFirst`); when it comes later, what lay below the directory is lost
  (`GitTree.EntryIsLostIffReplaced`). So an archive with the right hash holds the tree, and is it
  exactly if its listing is prefix-free (`GitArchive.RightHashMeansExport`,
  `GitArchive.ReplacedFileIsNotHashed`).
- The loop of `archive_git_tree` compares the mode said to be right for a changed file with nothing; only
  the final hash does (`GitArchive.ChangedModeIsNotCompared`).
- The builder's archive passes the check exactly when the lock names an upstream source.
- A recording that ends one to fifteen samples after a whole second gets a last sidecar with two
  knots in one millisecond, which `_validate_sidecar` rejects: `MeetingSegments.BuiltSidecarsAreValidIff`.
- A hotkey that is Escape itself, alone or with lock bits only, loses its grab when the first
  recording ends: `Hotkey.HotkeyStaysIff`. A refused grab also drops combinations of the same key
  that the client held before: `Hotkey.GrabIsUndoneIff`.
- In a listing of more than 256 tasks the profiler drops the baselines of the tasks it does not
  reach; such a thread, if it was born during the profile, is charged for its ticks again:
  `Sampler.LongListingChargesTwice`, and exactly when: `Sampler.EntryIsGrowthIffClean`.
- `ProcSampler.sample` divides by zero exactly when it is given a process under two roles and finds it
  alive both times with no fewer ticks (`CpuMean.SampleFailsIffClash` has the precise condition on
  successive looks at one pid).
- The update reservation is exact on the assumption that a failed `restart.start` posts no callback;
  `ProgramUpdates.CallbackAfterFailedStart` shows what one would do.

## Model

| member | source | states |
|---|---|---|
| `WordErrors.WordErrors` | tools/meeting_transcribe_check.py:83-102 | The result is the cost of some edit script between the two word sequences and no script is cheaper; empty inputs included. |
| `WordErrors.LastRow` | tools/meeting_transcribe_check.py:95-102 | With word numbers that are equal exactly when the words are, the last cell of the last row is the distance. |
| `WordErrors.Intern` | tools/meeting_transcribe_check.py:92-94 | Numbering words by first sight keeps exactly the equalities between words. |
| `WordErrors.FillCandidate` | tools/meeting_transcribe_check.py:99-100 | Each candidate is what the cell above and the diagonal offer, the first the row number. |
| `WordErrors.AccumulateInsertions` | tools/meeting_transcribe_check.py:101 | The new row is the running minimum of candidate less column, plus column. |
| `WordErrors.RunningMinimumIsDistance` | tools/meeting_transcribe_check.py:98-101 | The running minimum equals the left-to-right recurrence, cell by cell. |
| `WordErrors.NextRowIsRow` | tools/meeting_transcribe_check.py:98-101 | If a row holds the distances to all prefixes, so does the next. |
| `WordErrors.DistanceIsLeastCost` | tools/meeting_transcribe_check.py:83-102 | The recurrence is the minimum over all edit scripts. |
| `WordErrors.NoScriptIsCheaper` | tools/meeting_transcribe_check.py:83-102 | Every script costs at least the recurrence between its source and its target. |
| `WordErrors.CheapestScript` | tools/meeting_transcribe_check.py:83-102 | Some script attains the recurrence. |
| `WordErrors.Compose` | tools/meeting_transcribe_check.py:83-102 | Scripts that meet in the middle compose without costing more than both. |
| `WordErrors.InverseTurnsBack` | tools/meeting_transcribe_check.py:83-102 | A script inverted leads back at the same cost. |
| `WordErrors.DistanceIsSymmetric` | tools/meeting_transcribe_check.py:83-102 | The distance is symmetric. |
| `WordErrors.TriangleInequality` | tools/meeting_transcribe_check.py:83-102 | The distance obeys the triangle inequality. |
| `WordErrors.ZeroIffEqual` | tools/meeting_transcribe_check.py:83-102 | The distance is zero exactly for equal sequences. |
| `WordErrors.LengthBounds` | tools/meeting_transcribe_check.py:83-102 | The distance lies between the difference of the lengths and the larger length. |
| `GitTree.Build` | packaging/appimage/debverify.py:570-580 | Building gives the tree of the listing exactly when it is prefix-free, and reports a conflict exactly when a file comes before a path through it. |
| `GitTree.PlaceThenLookup` | packaging/appimage/debverify.py:574-580 | Placing an entry changes the tree at its path only, and forgets what lay below a directory it replaces. |
| `GitTree.PrefixFreeBuilds` | packaging/appimage/debverify.py:570-580 | Every prefix-free listing builds, and the tree then holds exactly its entries. |
| `GitTree.BuildFaithfulIffPrefixFree` | packaging/appimage/debverify.py:570-580 | The tree holds the listing exactly when no path is a directory on the way to another. |
| `GitTree.ConflictIffFileFirst` | packaging/appimage/debverify.py:575-579 | The conflict check fires exactly when a file is inserted before a path that passes through it. |
| `GitTree.EntryIsLostIffReplaced` | packaging/appimage/debverify.py:575-580 | When it does not fire, an entry is lost exactly if a file inserted later takes the place of one of its directories. |
| `GitTree.LookupsDetermineTree` | packaging/appimage/debverify.py:570-595 | Trees without empty directories that answer all lookups alike are equal. |
| `GitTree.SortingHasOneResult` | packaging/appimage/debverify.py:583-592 | Sorting the entries of a directory by their keys has one result. |
| `GitTree.RecordIsSelfDelimiting` | packaging/appimage/debverify.py:588-591 | Two tree records that begin the same bytes agree in mode, name and hash. |
| `GitTree.BodyDecodes` | packaging/appimage/debverify.py:582-593 | The serialised body of a directory determines its entries in order. |
| `GitTree.DigestDeterminesTree` | packaging/appimage/debverify.py:582-595 | Where hashes do not collide, trees with equal digests are equal, at every depth. |
| `GitOrder.ObjectReads` | packaging/appimage/debverify.py:583-593 | The bytes hashed for a directory, read as mode, name and twenty bytes each, list its entries once: files with their mode and hash, directories as 40000 with their digest. |
| `GitOrder.TreeObjectReads` | packaging/appimage/debverify.py:592-593 | The header gives the length of the body in decimal. |
| `GitOrder.BelowIffFirstDifference` | packaging/appimage/debverify.py:592 | The order is that of bytes: a proper beginning comes first, else the first byte that differs decides. |
| `GitOrder.WalkAscends` | packaging/appimage/debverify.py:583-592 | Walked in the order of the hashed bytes, the files of a tree come in the order of their full paths. |
| `GitOrder.ListingIsHashedInPathOrder` | packaging/appimage/debverify.py:570-595 | For a prefix-free listing that walk gives exactly its paths, ascending. |
| `GitTree.TreeHashIgnoresOrder` | packaging/appimage/debverify.py:570-595 | The tree hash does not depend on the insertion order of the path map. |
| `GitTree.TreeHashIsInjective` | packaging/appimage/debverify.py:570-595 | Where hashes do not collide, equal tree hashes mean equal path maps (prefix-free, clean names and modes). |
| `GitArchive.Unpack` | packaging/appimage/debverify.py:515-537 | The archived path map: foreign or dotted-up paths and special members refused, links and executables by mode, the last member of a path counts. |
| `GitArchive.UnpackedHoldsLast` | packaging/appimage/debverify.py:515-537 | An archive is read exactly if every member lies in the one top directory, without `..`, and is of a known kind; each path then holds what its last member does, under git's mode. |
| `GitArchive.UnixReplacesFirst` | packaging/appimage/debverify.py:562 | The first CRLF becomes a line feed, and so on after it. |
| `GitArchive.UnixKeeps` | packaging/appimage/debverify.py:562 | Data without CRLF is unchanged. |
| `GitArchive.MemberIsFiledUnderItsPath` | packaging/appimage/debverify.py:518-523 | A member named top/rel is filed under rel. |
| `GitArchive.RestoreTree` | packaging/appimage/debverify.py:538-567 | The result exists exactly for the right commit and an acceptable delta, and is the archive with missing paths put back and changed ones corrected. |
| `GitArchive.PutBackMissing` | packaging/appimage/debverify.py:540-548 | Missing items are accepted exactly if each is new and a submodule or export-ignored, and are then added. |
| `GitArchive.CorrectChanged` | packaging/appimage/debverify.py:549-566 | Changed items are accepted exactly if each is archived and explained, and then replace the archived entries. |
| `GitArchive.SomeDeltaRestoresIffExport` | packaging/appimage/debverify.py:501-567 | Some delta rebuilds a given tree from an archive exactly when the archive is an export of that tree by the known kinds of difference. |
| `GitArchive.RightHashMeansExport` | packaging/appimage/debverify.py:501-567 | An accepted archive that hashes to the id of a tree holds all of it; its other entries are those a later file replaces; its path map is that tree exactly when it is prefix-free, and then the archive is an export. |
| `GitArchive.ReplacedFileIsNotHashed` | packaging/appimage/debverify.py:535-580 | A file below `a` followed by `a` itself is accepted and hashes like `a` alone. |
| `Clearsigned.CheckLines` | packaging/appimage/debverify.py:106-126 | A line sequence is accepted exactly when it has the shape header, Hash lines, blank line, escaped text, one signature block, blank tail. |
| `Clearsigned.CheckClearsigned` | packaging/appimage/debverify.py:93-126 | The same for a text, split at line feeds with a carriage return dropped. |
| `Clearsigned.SkipHeaders` | packaging/appimage/debverify.py:108-112 | The header loop stops at the first line that is empty or not a Hash header. |
| `Clearsigned.SkipBody` | packaging/appimage/debverify.py:113-119 | The text loop stops at the first signature begin or unescaped dash. |
| `Clearsigned.SkipSignature` | packaging/appimage/debverify.py:120-123 | The signature loop stops at the first end marker or nested begin marker. |
| `Clearsigned.ShapeIsUnique` | packaging/appimage/debverify.py:93-126 | A line sequence has the shape in at most one way. |
| `Clearsigned.MessageIffCut` | packaging/appimage/debverify.py:93-126 | The shape read as parts and the shape read by line numbers are the same. |
| `Clearsigned.ExtractorAgrees` | packaging/appimage/debverify.py:598-608 | With harmless headers and a text that holds no other line break, the extractor returns the text the check saw, unescaped. |
| `Clearsigned.ExtractorAgreesIffBreakFree` | packaging/appimage/debverify.py:598-608 | For an accepted file in whose headers `splitlines` sees neither an empty line nor the signature marker, the extractor returns that text exactly when the text holds no other line break. |
| `Clearsigned.HeaderTextComesOut` | packaging/appimage/debverify.py:600-608 | If it sees an empty line there, the headers after it come out before the text. |
| `Clearsigned.HeadersHideText` | packaging/appimage/debverify.py:600-608 | If it sees the signature marker there, only header text comes out. |
| `Clearsigned.ExtractorAgreesIff` | packaging/appimage/debverify.py:93-126 | For every accepted file, exactly when the extractor returns the text the check saw. |
| `Clearsigned.UnsignedLineComesOut` | packaging/appimage/debverify.py:108-112 | Any line after two vertical tabs in a `Hash` header comes out as the first line of the text. |
| `Clearsigned.SplitHeaderPasses` | packaging/appimage/debverify.py:93-126 | Files with such a header are accepted, whatever the text. |
| `Clearsigned.WrapThenStrip` | packaging/appimage/debverify.py:598-608 | A dash-escaped and wrapped text reads back as wrapped exactly when no line holds a line feed or ends in a carriage return; with harmless headers it is then extracted unchanged exactly when it holds no other break. |
| `LoaderClosure.Walk.Visit` | packaging/appimage/check_bundle.py:243-269 | A visit adds to the seen states only states reachable from it, closed under loading, and to problems and used names exactly what those states contribute. |
| `LoaderClosure.ReadAll` | packaging/appimage/check_bundle.py:228-239 | The dictionary of objects, and one problem for each unreadable file. |
| `LoaderClosure.VisitRoots` | packaging/appimage/check_bundle.py:273-276 | Exactly the states reachable from objects no one needs by name are visited. |
| `LoaderClosure.CheckHost` | packaging/appimage/check_bundle.py:277-281 | A manifest name is reported exactly if absent from the host or used by no visited state. |
| `LoaderClosure.CheckNeeded` | packaging/appimage/check_bundle.py:213-282 | The report holds exactly the problems of reachable states, unreadable files, and stale or absent manifest names. |
| `LoaderClosure.CleanReportMeansLoadable` | packaging/appimage/check_bundle.py:213-282 | With an empty report every need of every reachable state loads an object of the bundle or is in the manifest, and every manifest name is used. |
| `LoaderClosure.ChainIsRpathsOfLoaders` | packaging/appimage/check_bundle.py:249-255 | The inherited chain is the concatenation of the loaders' RPATHs, nearest first, RUNPATH objects adding nothing. |
| `LoaderRules.RunpathDecides` | packaging/appimage/check_bundle.py:250-257 | An object with a RUNPATH searches its directories alone, whatever chain it inherits. |
| `LoaderRules.RpathDecides` | packaging/appimage/check_bundle.py:254-257 | One without searches its own RPATH and then those of its loaders, nearest first. |
| `LoaderRules.AnswerFollowsRules` | packaging/appimage/check_bundle.py:250-269 | Along any run from a root the first directory to search that holds a needed name decides; if none does, it is on the host or dangling. |
| `LoaderRules.VisitedIffLoaded` | packaging/appimage/check_bundle.py:243-276 | A state is visited exactly if by these rules the loader may load the object along some way and its loaders hand on that chain. |
| `LoaderRules.ReportFollowsRules` | packaging/appimage/check_bundle.py:213-282 | The report names exactly the problems that these rules give along every way an object may be loaded. |
| `LoaderClosure.CleanReportMeetsEveryNeedIff` | packaging/appimage/check_bundle.py:213-282 | With an empty report every need of every object is met exactly when every object that has needs, and whose own name is needed, is loaded by something visited. |
| `LoaderClosure.RootlessCycleIsNotChecked` | packaging/appimage/check_bundle.py:271-276 | A need that resolves nowhere goes unreported on a cycle without a root. |
| `LoaderClosure.ShadowedCopyIsNotChecked` | packaging/appimage/check_bundle.py:257-276 | It does so too in an object that another of its name hides from every search. |
| `LoaderTermination.WalkEndsIff` | packaging/appimage/check_bundle.py:245-263 | The walk ends exactly when it never comes back to an object with a longer chain of the same directories, and exactly when some rank on objects and repetition-free chains never rises along a load and falls with every RPATH added. |
| `LoaderTermination.EndsIffFinitelyVisited` | packaging/appimage/check_bundle.py:243-269 | It ends exactly when finitely many states are reachable from the roots. |
| `LoaderTermination.FindCompact` | packaging/appimage/check_bundle.py:257-258 | A search finds the same with repeated directories removed. |
| `LoaderTermination.VisitedKeys` | packaging/appimage/check_bundle.py:245-263 | However long the chains, the objects visited with their repetition-free chains lie in a finite set. |
| `LoaderTermination.SelfLoadNeverEnds` | packaging/appimage/check_bundle.py:254-263 | A visited object that loads itself and adds an RPATH never stops. |
| `LoaderTermination.ShadowedCycleEnds` | packaging/appimage/check_bundle.py:254-263 | A walk can end although an RPATH lies on a cycle of loads. |
| `SubmitServer.Server.SubmitMessage` | arch/spikes/S9/server_pyqt6.py:119-165 | One submission moves the server exactly as the state function: early reply, or a lookup that a failed call closes at once. |
| `SubmitServer.Server.FinishLookup` | arch/spikes/S9/server_pyqt6.py:141-154 | The first answer, error or timeout closes the lookup and answers its message, admitted exactly if verified and else refused; later ones change nothing. |
| `SubmitServer.Server.AdmitMessage` | arch/spikes/S9/server_pyqt6.py:190-213 | Admission as the state function: replay, conflict, deadline, rate, queue, acceptance. |
| `SubmitServer.Server.Answer` | arch/spikes/S9/server_pyqt6.py:86-101 | A reply is sent once, and a fresh acceptance schedules its work. |
| `SubmitServer.Server.RunWork` | arch/spikes/S9/server_pyqt6.py:105-116 | Deferred work starts, or is skipped during shutdown, with the counters in step. |
| `SubmitServer.StepKeeps` | arch/spikes/S9/server_pyqt6.py:105-213 | Every step keeps the invariant over replies, lookups, jobs and counters. |
| `SubmitRuns.RunKeeps` | arch/spikes/S9/server_pyqt6.py:105-213 | So does every run. |
| `SubmitRuns.NoMessageIsAnsweredTwice` | arch/spikes/S9/server_pyqt6.py:119-165 | In every run a message gets at most one reply, and one without a reply still has its lookup open. |
| `SubmitRuns.AcceptedOnceOnTimeAndSpaced` | arch/spikes/S9/server_pyqt6.py:190-213 | In every run an id is newly accepted at most once, not past its deadline, and with limits at least 500 ms after the previous acceptance. |
| `SubmitRuns.ReplaysAreRecognised` | arch/spikes/S9/server_pyqt6.py:193-198 | In every run a replay of an accepted id gets `already` for the same fingerprint and `request_conflict` for another; nobody else gets `already`. |
| `SubmitRuns.WorkStartsOncePerAcceptedId` | arch/spikes/S9/server_pyqt6.py:101-116 | In every run work starts at most once per accepted id, ids seen are started plus scheduled plus skipped, and with limits at most three run. |
| `SubmitFates.AdmittedIffVerifiedFirst` | arch/spikes/S9/server_pyqt6.py:119-165 | In every run a message is admitted exactly if the first event that closed its lookup verified its sender. |
| `SubmitFates.EveryReplyIsExplained` | arch/spikes/S9/server_pyqt6.py:118-213 | In every run every reply is the one its events call for: at once for an invalid, late or uncallable message, refused if the first closing event did not verify, else admitted with the right answer. |
| `SubmitFates.AnsweredAtOnce` | arch/spikes/S9/server_pyqt6.py:124-165 | A message that is invalid, late, too near its deadline or cannot be looked up is answered at once, and how. |
| `SubmitFates.AnsweredByFirstClosing` | arch/spikes/S9/server_pyqt6.py:141-165 | A waiting message is answered by the first event that closes its lookup. |
| `SubmitFates.VerdictIsRight` | arch/spikes/S9/server_pyqt6.py:190-213 | Replay, conflict, expiry, rate limit, full queue and new acceptance each have their own condition on what went before. |
| `SubmitFates.WorkIsDoneUnlessShutDown` | arch/spikes/S9/server_pyqt6.py:87-107 | In every run each accepted text is one job; none is skipped without the shutdown switch, and none is started with it. |
| `SourceArchive.ParseManifest` | scripts/release_sources.py:429-441 | The loop computes the parsed table, refusing bad rows, repeated paths and an empty manifest. |
| `SourceArchive.ManifestRoundTrip` | scripts/release_sources.py:198 | What the builder prints, the parser reads back, row for row. |
| `SourceArchive.CollectItems` | scripts/release_sources.py:179-196 | The entry list: readme, own source, then each locked source. |
| `SourceArchive.CheckEach` | scripts/release_sources.py:378-416 | The loop succeeds exactly when every member agrees with its row and no path repeats. |
| `SourceArchive.CheckMembers` | scripts/release_sources.py:374-426 | A count comes back exactly when the manifest comes first, the other members correspond one-to-one to its rows with size and digest, and all three kinds are there. |
| `SourceArchiveRules.ManifestIsReadIff` | scripts/release_sources.py:429-441 | A text is read as a table exactly if it writes its entries line by line: hash, size, path and origin between tabs, no path twice. |
| `SourceArchiveRules.AdmissibleLandsBelow` | scripts/release_sources.py:378-391 | An admissible member unpacks below the top directory. |
| `SourceArchiveRules.AcceptedIsSourceArchive` | scripts/release_sources.py:374-426 | In an accepted archive nothing unpacks outside the top directory, the manifest comes first, and the other members are one-to-one the files of its entries in place, size and hash. |
| `SourceArchive.OrderedPathsDiffer` | scripts/release_sources.py:179-197 | A valid lock gives distinct paths. |
| `SourceArchive.FilesMatchTable` | scripts/release_sources.py:198-210 | The written members correspond one-to-one to the manifest rows. |
| `SourceArchive.CompleteIffSources` | scripts/release_sources.py:422-425 | The rows hold all three kinds exactly when the lock has an upstream source. |
| `SourceArchive.BuiltArchivePassesIffSources` | scripts/release_sources.py:179-210 | An archive built from a valid release within the limits passes, in any member order, exactly when the lock has an upstream source. |
| `XzReader.SkipPadding` | scripts/release_sources.py:254-265 | The padding counted is the maximal run of zeros across unused data and later reads. |
| `XzReader.Reader.AfterStream` | scripts/release_sources.py:253-271 | After a stream: refused exactly for padding not divisible by four, finished exactly at the end of input, else a new decoder. |
| `XzReader.Reader.Fetch` | scripts/release_sources.py:272-277 | Input is read only when the decoder needs it; running out inside a stream is an error. |
| `XzReader.Reader.Decode` | scripts/release_sources.py:278-282 | Output goes on exactly where the meaning of the file goes on; the size is the exact total. |
| `XzReader.Reader.Turn` | scripts/release_sources.py:252-287 | One turn of the loop delivers the next bytes, ends as the file means, or makes progress. |
| `XzReader.Reader.ReadInto` | scripts/release_sources.py:249-287 | A call fills a prefix of the buffer with the next bytes, returns zero only at the end of a well-formed file, and fails only as the file's bytes require. |
| `XzReader.StreamEnded` | scripts/release_sources.py:253-271 | At the end of a stream the padding decides how the file goes on. |
| `XzReader.WholeFileUnpacks` | scripts/release_sources.py:253-271 | Streams joined by padding in multiples of four decode to their joined contents. |
| `XzReader.Pull` | scripts/release_sources.py:249-287 | One read through a buffer of any size. |
| `XzReader.Drain` | scripts/release_sources.py:237-287 | However the file is chunked and whatever the buffer sizes, draining the reader gives the one outcome its bytes determine, and nothing above the limit. |
| `ProcessOwner.ProcessOwner.Register` | tools/meeting_stand.py:136-139 | A registered process is recorded with its identity, if it has one. |
| `ProcessOwner.ProcessOwner.OwnedGroup` | tools/meeting_stand.py:169-185 | No members, recognised exactly if one of them still shows what was recorded of it, or unconfirmed; a recognised group is remembered with exactly the members it has. |
| `ProcessOwner.ProcessOwner.Terminate` | tools/meeting_stand.py:187-209 | SIGTERM is sent exactly if a recorded member still lives in the group, SIGKILL then exactly if one process was in it at both checks; unconfirmed is reported exactly for members none of whom vouches. |
| `ProcessOwner.SurvivorVouches` | tools/meeting_stand.py:178-185 | A group found owned is found owned again exactly if one of its members is left. |
| `ProcessOwner.SignalledAgainIffSurvivor` | tools/meeting_stand.py:169-191 | In every run a group signalled once is signalled again exactly if a member from then is left. |
| `ProcessOwner.LivingLeaderIsSignalled` | tools/meeting_stand.py:136-191 | In every run a registered leader still alive in its group is signalled with the rest of it. |
| `ProcessOwner.KernelStaysSane` | tools/meeting_stand.py:169-185 | The kernel rules keep a session number with one session and a group within one session. |
| `ProcessOwner.RecognisedMeansOwned` | tools/meeting_stand.py:180-185 | One recognised member vouches that the whole group is in the registered session. |
| `ProcessOwner.SignalsHitOnlyRegisteredSessions` | tools/meeting_stand.py:136-209 | In every run of births, moves, deaths and number reuse every signal hits a member of the session that was registered. |
| `ProcessOwner.NumberMayBeReused` | tools/meeting_stand.py:180-182 | A later session may bear the same number, and is then not recognised. |
| `ProgramUpdates.UpdateController.RequestInstall` | src/astra_voice/app.py:1367-1385 | A request reserves, counts an attempt, and keeps the reservation exactly if preparation starts. |
| `ProgramUpdates.UpdateController.OnPrepared` | src/astra_voice/app.py:1392-1415 | Only the callback of the current attempt takes effect: a restart offered without error, if the program quits, becomes pending, and all else leaves nothing pending and the reservation free. |
| `ProgramUpdates.UpdateController.CloseDown` | src/astra_voice/app.py:1421-1429 | Closing ends all attempts and releases unless a restart is pending. |
| `ProgramUpdates.UpdateController.DropReservation` | src/astra_voice/app.py:1387-1390 | A held reservation is released once. |
| `ProgramUpdates.StepKeeps` | src/astra_voice/app.py:1350-1429 | Every step keeps the invariant, a pending restart, and closedness. |
| `ProgramUpdates.RunKeeps` | src/astra_voice/app.py:1350-1429 | So does every run. |
| `ProgramUpdates.ReservationIsExact` | src/astra_voice/app.py:1367-1390 | In every run the controller holds the reservation exactly while it says so, and reserving and releasing strictly alternate. |
| `ProgramUpdates.PendingRestartIsSafe` | src/astra_voice/app.py:1392-1415 | In every run a pending restart holds the reservation and is never overwritten; each attempt takes effect at most once. |
| `ProgramUpdates.ClosedWithoutRestartIsFree` | src/astra_voice/app.py:1421-1429 | From close on without a pending restart the controller holds nothing. |
| `ProgramUpdates.FirstCallbackDecides` | src/astra_voice/app.py:1392-1415 | In every run the first callback of a preparation before close decides between a pending restart and a free reservation; every other callback changes nothing. |
| `ProgramUpdates.PendingOnlyByCallback` | src/astra_voice/app.py:1392-1415 | In every run a restart becomes pending only by such a callback that offers it without error when the program quits. |
| `ProgramUpdates.RequestReservesIff` | src/astra_voice/app.py:1367-1385 | In every run a request gets the reservation exactly if close has not come, nothing refuses it and it is granted, and keeps it exactly if the preparation starts. |
| `ProgramUpdates.CallbackAfterFailedStart` | src/astra_voice/app.py:1378-1385 | A callback after a failed start would leave a restart pending without the reservation. |
| `Sampler.Sampler.Record` | tools/meeting_stand_profile.py:162-170 | A stack is counted in its row, in a new row while there is room, else in the overflow. |
| `Sampler.Sampler.TakeReading` | tools/meeting_stand_profile.py:216-233 | A reading charges the growth since the baseline to the thread or the bucket, and to its stack only if it was running. |
| `Sampler.Sampler.TakeListed` | tools/meeting_stand_profile.py:199-233 | The listing is taken task by task up to the cap. |
| `Sampler.Sampler.Sample` | tools/meeting_stand_profile.py:188-239 | One sample moves the sampler exactly as the state function, baselines last. |
| `Sampler.SamplesBalance` | tools/meeting_stand_profile.py:162-233 | After any samples thread CPU plus bucket equals stack CPU plus overflow plus unattributed, wall counts equal reads, reads plus missed reads equal tasks listed, and both tables keep their limits. |
| `SamplerRows.RowsAreReadings` | tools/meeting_stand_profile.py:162-233 | Every row counts exactly the readings of its thread and stack, with the growth of those that were running; only a full table leaves readings to the overflow row. |
| `Sampler.BaselineIsLatest` | tools/meeting_stand_profile.py:234-238 | The baseline kept for a thread is its latest reading, for as long as its id stays listed. |
| `Sampler.ThreadsAreAccounted` | tools/meeting_stand_profile.py:216-227 | For any samples each thread's entry is its growth plus an exactly described excess, and table plus bucket hold the same for all threads. |
| `Sampler.ExcessIsZeroIffClean` | tools/meeting_stand_profile.py:219-221 | The excess of a thread is zero exactly if no reading found its baseline dropped with ticks at stake; errors of one thread never cancel. |
| `Sampler.EntryIsGrowthIffClean` | tools/meeting_stand_profile.py:216-227 | A thread's entry is its latest ticks, less the first unless it was born during the profile, exactly under that condition. |
| `Sampler.ShortListingsTelescope` | tools/meeting_stand_profile.py:199-238 | With at most 256 tasks a listing and threads listed without a gap, every entry telescopes and no growth is counted twice. |
| `Sampler.LongListingChargesTwice` | tools/meeting_stand_profile.py:200-203 | A thread pushed out of one longer listing is charged for all its ticks twice. |
| `CpuMean.ProcSampler.TakeSample` | tools/meeting_stand_metrics.py:163-214 | One sample is taken exactly when the clock advanced and no two looks clash; no baseline is ever later than the last sample, and a failed sample keeps those of the looks before the failure. |
| `CpuMean.SampleFailsIffClash` | tools/meeting_stand_metrics.py:189-203 | With baselines in the past a sample divides by zero exactly when of two successive looks at one pid the first is read whole and the second reads the same start and no fewer ticks. |
| `CpuMean.ClashFails` | tools/meeting_stand_metrics.py:189-203 | Such looks fail whatever the baselines. |
| `CpuMean.RowsFromBaselines` | tools/meeting_stand_metrics.py:180-213 | With each process given once the sample is taken, each row comes from the baseline before it, and a process read whole leaves its own. |
| `CpuMean.LoggedIffNoClash` | tools/meeting_stand_metrics.py:163-214 | While time advances a fresh sampler takes all its samples exactly when none has a clash. |
| `CpuMean.MeanCpu` | tools/meeting_stand_metrics.py:217-246 | The mean is known exactly when the same capture processes were measured in every interval, and is then the time-weighted mean; unordered samples are refused. |
| `CpuMean.MeanIsTickGrowth` | tools/meeting_stand_metrics.py:152-246 | With time advancing and each process given once, all samples are taken, and a known mean is exactly the capture processes' ticks between first and last sample over the ticks that passed, for the same processes. |
| `Hotkey.MaskVariants` | spikes/s4_hotkey_paste/hotkey.py:90-104 | The variants are, without duplicates, exactly the base with any of the lock bits. |
| `Hotkey.Grab` | spikes/s4_hotkey_paste/hotkey.py:126-139 | A grab takes all variants, or if another client holds one drops them all. |
| `Hotkey.Ungrab` | spikes/s4_hotkey_paste/hotkey.py:141-144 | Exactly the client's own variants are dropped. |
| `Hotkey.GrabIsUndoneIff` | spikes/s4_hotkey_paste/hotkey.py:126-144 | A refused grab, and a granted one dropped again, restore the server exactly when the client held none of the combinations before. |
| `Hotkey.KeysShareIff` | spikes/s4_hotkey_paste/hotkey.py:90-104 | Two keys share a combination exactly when they are one key with masks that differ in lock bits only. |
| `Hotkey.HotkeySpike.EmitEntry` | spikes/s4_hotkey_paste/hotkey.py:166-169 | An entry is logged and the callback grabs or drops Escape. |
| `Hotkey.HotkeySpike.KeyPressed` | spikes/s4_hotkey_paste/hotkey.py:171-179 | A press starts a recording or ends a toggled one. |
| `Hotkey.HotkeySpike.KeyReleased` | spikes/s4_hotkey_paste/hotkey.py:181-189 | A release turns a short tap into toggle mode or ends the recording. |
| `Hotkey.HotkeySpike.CancelRecording` | spikes/s4_hotkey_paste/hotkey.py:191-196 | Escape ends a recording without processing. |
| `Hotkey.HotkeySpike.StopRecording` | spikes/s4_hotkey_paste/hotkey.py:198-207 | A stop passes through processing to idle, once. |
| `Hotkey.HotkeySpike.HandleEvent` | spikes/s4_hotkey_paste/hotkey.py:321-334 | Hotkey events drive the machine; Escape counts only while grabbed. |
| `Hotkey.HotkeySpike.OnXFd` | spikes/s4_hotkey_paste/hotkey.py:300-319 | What is handled is the filtered stream, however it was cut into reads; a final release of the hotkey was waited on in vain; each dropped pair is counted. |
| `Hotkey.StepKeeps` | spikes/s4_hotkey_paste/hotkey.py:152-207 | Every step keeps: the log replays to the machine's state, the timer runs exactly while recording, Escape is held only while recording. |
| `Hotkey.EveryRecordingEndsOnce` | spikes/s4_hotkey_paste/hotkey.py:152-207 | In every run, at every point of the log, each recording begun has ended once except the one under way. |
| `HotkeyTimes.ReleaseDecidesByTime` | spikes/s4_hotkey_paste/hotkey.py:181-189 | In every run a release within 0.3 s of the press that began the recording turns it into a toggled one, once; any other ends it. |
| `HotkeyTimes.OtherInputsDecideLog` | spikes/s4_hotkey_paste/hotkey.py:171-207 | In every run what every other input, and the limit timer, adds to the log. |
| `HotkeyTimes.EscapeIsTried` | spikes/s4_hotkey_paste/hotkey.py:275-287 | In every run Escape is grabbed when a recording begins exactly if no other client holds one of its combinations. |
| `HotkeyTimes.EscapeIsTriedAgain` | spikes/s4_hotkey_paste/hotkey.py:275-287 | It is tried again when the recording becomes a toggled one. |
| `Hotkey.RunHolds` | spikes/s4_hotkey_paste/hotkey.py:275-287 | If the keys share no combination, every run leaves exactly what was held at first, with Escape's combinations while grabbed. |
| `Hotkey.HotkeyStaysIff` | spikes/s4_hotkey_paste/hotkey.py:210-287 | A granted hotkey stays grabbed in every run exactly when it is not Escape alone or with lock bits only. |
| `Hotkey.FilterUndoesRepeats` | spikes/s4_hotkey_paste/hotkey.py:300-319 | The filter gives back a repeat-free stream exactly when the input is that stream with same-time release/press pairs inserted. |
| `MeetingSegments.BuildTrack` | tools/meeting_transcribe_check.py:426-469 | The segments partition the frames in order without a gap, with their indexes, knots and last mark; empty and over-long recordings are refused. |
| `MeetingSegments.Knots` | tools/meeting_transcribe_check.py:444-446 | A knot on every second and one at the end. |
| `MeetingSegments.ValidateSidecar` | tools/meeting_stand_metrics.py:374-420 | The neighbour-by-neighbour check decides that both axes strictly increase throughout and all numbers are in bounds. |
| `MeetingSegments.WrittenSidecarIsValidIff` | tools/meeting_transcribe_check.py:441-465 | A written sidecar passes exactly when its last gap spans a millisecond. |
| `MeetingSegments.BuiltSidecarsAreValidIff` | tools/meeting_transcribe_check.py:426-469 | All sidecars of a recording pass exactly when it does not end one to fifteen samples after a whole second. |
| `MeetingSegments.SegmentsShareKnots` | tools/meeting_transcribe_check.py:444-446 | Adjacent segments end and begin on the same knot. |
| `MeetingSegments.RawSampleToMonotonic` | tools/meeting_stand_metrics.py:434-445 | A sample is mapped exactly if the sidecar is valid and the knots reach it, to its knot or the line between two. |
| `MeetingSegments.ClockIncreases` | tools/meeting_stand_metrics.py:440-444 | On a valid sidecar later samples are mapped strictly later. |
| `MeetingSegments.WrittenClockIsAccurate` | tools/meeting_transcribe_check.py:441-446 | On a written sidecar the mapped time is exact up to the last whole second and less than a millisecond early after it. |
| `QuietRanges.WindowsAreApart` | tools/meeting_stand_metrics.py:1087-1091 | The quiet windows between increasing beeps do not overlap. |
| `QuietRanges.WindowsAreQuiet` | tools/meeting_stand_metrics.py:1087-1091 | The windows hold exactly the instants between first and last beep that are clear of every beep by the guard on both sides. |
| `QuietRanges.FirstAtIsExact` | tools/meeting_stand_metrics.py:1103-1114 | A sample is at or after the rounded-up position of a time exactly when its own time is. |
| `QuietRanges.CutSelectsQuiet` | tools/meeting_stand_metrics.py:1097-1116 | Between two knots a sample is selected exactly when its time lies in the half-open window. |
| `QuietRanges.CreditIsWithinOnePeriod` | tools/meeting_stand_metrics.py:1117-1119 | The milliseconds credited miss the clipped window by less than one sample period. |
| `QuietRanges.CutPair` | tools/meeting_stand_metrics.py:1097-1119 | The inner loop collects the ranges and credit of one pair of knots. |
| `QuietRanges.CutSegment` | tools/meeting_stand_metrics.py:1093-1133 | The loops collect the ranges and credit of a segment, and count its samples. |
| `QuietRanges.RangesAreExact` | tools/meeting_stand_metrics.py:1093-1119 | A sample lies in some range exactly when it is in the segment and its interpolated time is quiet. |
| `QuietRanges.RangesAreDisjoint` | tools/meeting_stand_metrics.py:1093-1119 | No sample lies in two ranges. |
| `QuietRanges.RangesCountQuietSamples` | tools/meeting_stand_metrics.py:1120-1133 | The lengths of the ranges add up to the number of quiet samples. |
| `RecordedAxis.Recorded` | tools/meeting_stand_metrics.py:448-476 | A point is mapped exactly when all boundaries fit and some interval holds it, by the first that does. |
| `RecordedAxis.DriftOverIntervals` | tools/meeting_stand_metrics.py:453-468 | Over whole intervals recorded time misses the time inside by at most one millisecond each. |
| `RecordedAxis.RecordedDifference` | tools/meeting_stand_metrics.py:448-476 | For two mapped points the recorded difference follows the time spent inside intervals, pauses adding nothing, within one millisecond per interval crossed. |
| `RecordedAxis.LaterPointLaterInterval` | tools/meeting_stand_metrics.py:471-475 | A later point is found in the same or a later interval. |
| `Coverage.Covered` | tools/meeting_stand_metrics.py:1029-1040 | The sweep answers exactly whether every instant of the stretch is in some span. |
| `BeepFit.SxxPositive` | tools/meeting_stand_metrics.py:607-608 | The denominator is positive for a strictly increasing schedule. |
| `BeepFit.ResidualsAreOrthogonal` | tools/meeting_stand_metrics.py:606-611 | The residuals of the fit sum to zero and are orthogonal to the hours. |
| `BeepFit.FitIsLeastSquares` | tools/meeting_stand_metrics.py:599-612 | No intercept and slope have a smaller squared error. |
| `BeepFit.OneOrthogonalLine` | tools/meeting_stand_metrics.py:606-611 | Only one line leaves such residuals. |
| `BeepFit.FitIsLinear` | tools/meeting_stand_metrics.py:684-688 | The fit of the track difference is the difference of the two fits. |
| `Strings.JoinUndoesSplit` | packaging/appimage/debverify.py:574 | Joining what was split gives the text back. |
| `Strings.SplitUndoesJoin` | scripts/release_sources.py:432 | Splitting joined parts that hold no separator gives the parts back. |
| `Strings.SplitLinesUndoesUnlines` | scripts/release_sources.py:431 | Lines printed with a line feed each are the lines read back, if they hold no line break. |
| `Strings.SplitLinesSeesPieces` | packaging/appimage/debverify.py:600 | Up to the last line, `splitlines` sees the `\n`-separated lines one after the other, each cut at its other breaks. |
| `Strings.SameLines` | packaging/appimage/debverify.py:600 | As long as lines hold no other break, both ways of splitting a text see the same lines. |
| `Strings.NewlineLinesOfJoinIffTidy` | packaging/appimage/debverify.py:102-105 | Joined lines read back exactly when none holds a line feed or ends in a carriage return. |

## Left out

- WordErrors: 64-bit overflow in the row arithmetic, `normalize_words`, and the report built on the distance.
- GitTree.Build: `_tree_hash` changes nested dictionaries in place; the model places entries in immutable trees, so aliasing of a directory under two names is not captured (the code never creates it).
- GitArchive.RestoreTree: the tar and JSON readers, the decoding of names, and which of several errors is reported first.
- Clearsigned.CheckClearsigned: decoding from UTF-8, and everything about keys and `gpgv`.
- LoaderClosure.CheckNeeded: reading ELF files, and the textual substitution of `$ORIGIN` in `_expand`; a search entry is given as a directory or as unsupported, and the file system as a map of where each name in each directory leads.
- LoaderClosure.Walk.Visit: requires a finite closed set of states around the walk, without which the recursion of the code does not end; `LoaderTermination.WalkEndsIff` says when there is one.
- SubmitServer.Server.SubmitMessage: the field checks of `validate` are one parameter, the reason to refuse or none; fault-injection and blocking switches, and leaving the event loop.
- SubmitRuns.ReplaysAreRecognised: speaks of fingerprints; that different texts have different fingerprints is a property of the hash.
- SourceArchive.CheckMembers: the tar reader with its header limits, and the digest of the archive itself.
- SourceArchive.BuiltArchivePassesIffSources: fetching, verifying and caching sources, tar timestamps and permissions.
- XzReader.Drain: corrupt data and the memory limit, on which the decoder of the `lzma` module raises; `_HashingReader`.
- ProcessOwner.ProcessOwner.Terminate: waits that time out, and a group that disappears between check and signal; check and signal are one step.
- ProcessOwner: `start`, `command`, `close`, interrupts.
- ProgramUpdates.UpdateController.OnPrepared: a close called from inside `quit` is a separate step after it; messages to the interface and the download side are not modelled.
- Sampler.Sampler.Sample: how Python frames become a stack, exact sections, snapshots and checkpoints.
- CpuMean.ProcSampler.TakeSample: takes the processes in order, already sorted and with duplicates within a role removed; memory, limits and disk are not modelled.
- CpuMean.MeanCpu: peak, memory growth and the criteria built on them.
- Hotkey.MaskVariants: finding the bits of Num Lock and Scroll Lock in the modifier map, and parsing a key combination.
- Hotkey.EveryRecordingEndsOnce: the machine and the object that owns its callback are one object; how long the limit timer runs, `_probe` and `finish`.
- MeetingSegments.BuildTrack: reading and writing WAV files and the meeting store.
- MeetingSegments.ValidateSidecar: the fields of a sidecar that are not numbers.
- QuietRanges.CutSegment: ranges are counted from the start of the recording, not of the segment; reading PCM and the level computed from it.
- BeepFit.FitIsLeastSquares: the outputs that are square roots, the largest residual, and the minute windows.
- RecordedAxis, Coverage: reading the intervals and mapping the ends of segments; `EpochTimeline` and `SegmentTimeline` are not part of this model.
- `parse_deb822`, `release_sha256`, index and package lookups, `nearest_deltas`, `percentile`, lock and catalogue field checks: short claims that each body shows.
- The graphical interface, audio set-up, capture driving and report assembly.
