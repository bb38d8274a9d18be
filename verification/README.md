# Verification of keelson-interface-docker

A Dafny model of the parts of the container interface whose correctness depends on
interleavings, arithmetic over whole runs, or an algorithm that is easy to get subtly
wrong: the log capture pipeline, the `logs` query, the platform-file write protocol and
the two host publishers. `dafny verify dfyconfig.toml` checks all of it.

| file | models |
|---|---|
| `Common.dfy` | options, sequence helpers, bytes |
| `LineFraming.dfy` | the log line parser and the frame-to-line buffer |
| `RateCap.dfy` | the per-container line budget and its rate bound |
| `LogFollow.dfy` | a follower thread: frames in, lines and gap notes out |
| `LogQueue.dfy` | the drop-oldest queue between many followers and one publisher |
| `FollowerRegistry.dfy` | the scan loop's registry of follower threads |
| `LogQuery.dfy` | merging two tailed streams and trimming to a window |
| `SegmentGlob.dfy` | the segment-aware glob matcher |
| `PathJail.dfy` | resolving a request path through symbolic links, and the write guard |
| `PlainWalk.dfy` | the same resolution as a plain walk that remembers nothing |
| `WriteProtocol.dfy` | optimistic writes with an atomic replace, as interleaved steps |
| `StatusWire.dfy` | the serialized bytes the change digest is taken over |
| `StatusPublisher.dfy` | the change-plus-heartbeat loop |
| `StatsPublisher.dfy` | the sample cache and the published rates |

Concurrent parts (`LogQueue`, `FollowerRegistry`, `WriteProtocol`) are transition systems:
`Enabled` and `Apply` give one atomic step of one thread, `Reaches` an arbitrary
interleaving, and the theorems quantify over all of them. Sequential parts that update
fields in place are classes whose methods are proved against a fold over everything the
object has been given, about which the whole-run theorems are proved.

## Results that are conditions

Some properties one would expect of the code do not hold of it in general. For these the
model states exactly when they do.

- The drop count that the log publisher reports (`logs_follower.py:383-388`) is `+= 1` on a
  field shared by all follower threads. With the load and the store as separate steps it is
  exact in every run if and only if the queue is unbounded or there is at most one follower
  (`LogQueue.DropReportExactIff`); otherwise it can only report too few
  (`LogQueue.EveryRunSafe`), and in any one run it falls short by exactly what stores have
  overwritten (`LogQueue.CountConserved`), which is nothing when updates do not overlap
  (`LogQueue.CountExactWhenUpdatesApart`). Under the first condition, and no other, a
  follower never drops its own newest line instead of the oldest queued one.
- A container has one follower in every run if and only if no listing repeats a name
  (`FollowerRegistry.OneFollowerPerNameIff`).
- Fetching only the tail of each stream gives the newest window of the whole log if and only
  if the cut does not separate a line without a timestamp from the timed line before it
  (`LogQuery.TailLawIff` for stdout, `LogQuery.TailLawIffStderr` for stderr, for streams
  whose times do not step back).
- A cap of n lines a second does not bound every second by n: an interval that straddles a
  refill can hold twice as many, and that is the worst case (`RateCap.RateBound`,
  `RateCap.OneSecondCanAdmitTwiceTheCap`) as long as no clock reading lies before the start
  of its window. On arbitrary clocks the bound holds if and only if the cap is one line
  (`RateCap.BoundHoldsOnAnyClockIff`); for every larger cap a clock that steps back between
  refills defeats it (`RateCap.BackwardClockDefeatsBound`).
- After a stream that broke off, the next one gives the lines it would give on its own if and
  only if its first piece parses the same with the buffer's leftover before it; before a
  blank first piece that is when the leftover is blank (`LineFraming.LeftoverJoinsNextStream`).
- The hash a read returns can be used as the base of a write if and only if the read was not
  truncated (`WriteProtocol.ReadHashAcceptedIffWhole`).
- The write guard tests where the resolved path leads when it is resolved a second time
  (`platform_paths.py:133-140`), while the file written is the first resolution. Since Python
  3.13 a link that leads back to itself is not an error there, and the two can differ: with
  `g` linking to `sub/l.yml` and `sub/l.yml` to `../g/../sub/l.yml`, a request for `g` under
  the one glob `sub/sub/*` writes `sub/l.yml` (`PathJail.LoopedExample`, and
  `PathJail.LoopedRequestEscapesGlob` for all such names). For a given request every glob
  that lets it through matches the path that is written if and only if resolving that path
  again does not move it within the root (`PathJail.GlobIsAboutWrittenPathIff`). A request
  that meets no link while that link is being followed is always such
  (`PathJail.NoLoopSettles`), and over runs of such requests every changed file's own path
  matches a glob (`WriteProtocol.ChangesMatchGlobs`). That a changed file lies under the
  root and has an editable name holds for all links and all runs
  (`WriteProtocol.ChangesStayInJail`).

Where the code and its documentation differ the model follows the code:
`interfaces/ContainerControl.proto:224-226` says `truncated` reports the byte ceiling, while
`model.py:581-597` also sets it when the line limit cuts, and `handlers.py:132-148` cannot
see lines the runtime already left out.

## Model

| member | source | states |
|---|---|---|
| LineFraming.ParseRendered | src/keelson_interface_docker/model.py:527-538 | a line rendered as the runtime does, timestamp, space, text, parses back to that timestamp and text |
| LineFraming.ParseLogLineIff | src/keelson_interface_docker/model.py:516-538 | a chunk gives no line iff it is blank; otherwise a token ending in Z before the first whitespace is the time and what follows is the text, or else all of it is text, decoded and without its trailing carriage returns |
| LineFraming.StreamReadsAs | src/keelson_interface_docker/model.py:541-546 | a stream's lines are its non-blank pieces, one by one and in order |
| LineFraming.SplitJoins | src/keelson_interface_docker/logs_follower.py:107-109 | splitting at newlines loses no byte and leaves none in a piece |
| LineFraming.SplitAppend | src/keelson_interface_docker/logs_follower.py:106-110 | what a frame adds depends on earlier bytes only through the held-back remainder |
| LineFraming.LineBuffer.constructor | src/keelson_interface_docker/logs_follower.py:103-104 | a new buffer has been fed nothing |
| LineFraming.LineBuffer.Feed | src/keelson_interface_docker/logs_follower.py:106-110 | returns exactly the pieces that became complete, wherever the bytes were cut into frames |
| LineFraming.LineBuffer.Flush | src/keelson_interface_docker/logs_follower.py:112-116 | hands out the unfinished last line unless it is blank, and starts over |
| LineFraming.FlushCompletes | src/keelson_interface_docker/model.py:541-546 | complete pieces plus the flushed tail parse to what the whole string parses to |
| LineFraming.LeftoverJoinsNextStream | src/keelson_interface_docker/logs_follower.py:263-288 | after a broken stream the lines are those of the leftover joined to the next one; they are its own lines iff its first piece parses the same behind the leftover, for a blank first piece iff the leftover is blank |
| RateCap.RateLimiter.constructor | src/keelson_interface_docker/logs_follower.py:127-131 | the limiter starts with a fresh window at time zero |
| RateCap.RateLimiter.Allow | src/keelson_interface_docker/logs_follower.py:133-143 | a call a second or more after the window's start is admitted and opens the next; within a window it is admitted iff fewer than the cap came before; without a cap always; a refusal is counted |
| RateCap.OpenerIsLast | src/keelson_interface_docker/logs_follower.py:136-138 | a window is opened by a reading a second or more after the start of the one before it, and none since has come that late |
| RateCap.AnsweredYesIff | src/keelson_interface_docker/logs_follower.py:133-143 | over every run on any clock a call is admitted iff at most cap calls, itself included, have come since its window opened |
| RateCap.RateLimiter.OverflowNote | src/keelson_interface_docker/logs_follower.py:145-150 | reports the pending drops once and clears them |
| RateCap.AdmittedAreVerdicts | src/keelson_interface_docker/logs_follower.py:133-143 | the count that is bounded is that of the calls in the interval that the limiter answered with yes |
| RateCap.AdmittedWithinPotential | src/keelson_interface_docker/logs_follower.py:133-143 | from any state, while no reading lies before its window's start, admissions into an interval are bounded by the rest of the window and the windows that can still start |
| RateCap.RateBound | src/keelson_interface_docker/logs_follower.py:119-143 | while no reading lies before its window's start, any half-open interval of length L admits at most (ceil L + 1) times the cap |
| RateCap.SteadyClockSuffices | src/keelson_interface_docker/logs_follower.py:134-138 | a clock that never steps back has no such reading |
| RateCap.BoundHoldsOnAnyClockIff | src/keelson_interface_docker/logs_follower.py:133-143 | over all clocks whatever the bound holds iff the cap is one line |
| RateCap.BurstWithinWindow | src/keelson_interface_docker/logs_follower.py:136-143 | within one window a burst of n is admitted to exactly the remaining cap |
| RateCap.OneSecondCanAdmitTwiceTheCap | src/keelson_interface_docker/logs_follower.py:136-141 | the bound is reached |
| RateCap.BackwardClockDefeatsBound | src/keelson_interface_docker/logs_follower.py:136-138 | for every cap of two or more, a clock that steps back between refills has any number of lines admitted at one instant |
| LogFollow.GapAccounting | src/keelson_interface_docker/logs_follower.py:311-329 | reading each note as that many blanks gives back the input line for line with exactly the refused lines blank; pending drops are the trailing gap; notes sit right before the line that ends their gap; `since` is the last recorded stamp |
| LogFollow.UncappedRecordsEverything | src/keelson_interface_docker/logs_follower.py:134-135 | without a cap every line is recorded in order and no note appears |
| LogFollow.Follower.Emit | src/keelson_interface_docker/logs_follower.py:311-329 | one piece advances the run by its parsed line, or not at all if blank |
| LogFollow.Follower.EmitAll | src/keelson_interface_docker/logs_follower.py:276-277 | a batch of pieces advances the run by the lines they parse to |
| LogFollow.Follower.ReadFrames | src/keelson_interface_docker/logs_follower.py:273-277 | the lines seen are those of the bytes received, however framed |
| LogFollow.Follower.FollowStream | src/keelson_interface_docker/logs_follower.py:265-288 | a clean end flushes the last line, an exception keeps it in the buffer |
| LogFollow.FollowOnce | src/keelson_interface_docker/logs_follower.py:259-329 | frames to queue: every non-blank piece of the byte string is recorded, with its own decoded text and its own time in seconds or else the clock's, iff at most cap pieces came in its window, and is a blank otherwise; the same as the pull path's parse with the refused lines blank |
| LogFollow.Follow | src/keelson_interface_docker/logs_follower.py:257-302 | the same over any number of reconnects, each stream ended or broken off, for the pieces of the bytes between clean ends run together |
| LogFollow.RecordedAreAdmitted | src/keelson_interface_docker/logs_follower.py:316-328 | in any stretch of a follower's run no more lines are recorded than the limiter admits |
| LogFollow.RecordedRateBound | src/keelson_interface_docker/logs_follower.py:119-143 | so a stretch whose clock readings lie in an interval of length L records at most (ceil L + 1) times the cap, on any clock for a cap of one |
| LogQueue.EveryRunSafe | src/keelson_interface_docker/logs_follower.py:331-346 | in every interleaving: capacity kept, each push in exactly one of held, queued, taken, dropped, each producer's lines leave in push order, at most three queue operations a push, counter never above the drops |
| LogQueue.EveryInterleavingSafe | src/keelson_interface_docker/logs_follower.py:331-376 | the same from any safe state, by any sequence of steps |
| LogQueue.StepSafe | src/keelson_interface_docker/logs_follower.py:331-376 | every single step of any thread keeps it |
| LogQueue.EnqueueAlwaysEnds | src/keelson_interface_docker/logs_follower.py:331-346 | a push returns after at most seven steps of its own thread and is never blocked by others |
| LogQueue.AloneRun | src/keelson_interface_docker/logs_follower.py:331-346 | a single producer's queue always holds its latest pushes without a hole, and its drop count is exact |
| LogQueue.DropReportExactIff | src/keelson_interface_docker/logs_follower.py:335-346 | the drop count is exact, and only old lines are dropped, in all runs iff the queue is unbounded or there is at most one producer |
| LogQueue.CountConserved | src/keelson_interface_docker/logs_follower.py:338-346 | in every run of any number of producers, counter, drops still to be counted and what stores have overwritten add up to the drops |
| LogQueue.CountExactWhenUpdatesApart | src/keelson_interface_docker/logs_follower.py:338-346 | the count is exact in every run in which no producer stores while another stands between its load and its store |
| LogQueue.RunOvertaken | src/keelson_interface_docker/logs_follower.py:335-346 | for any capacity and any two producers, a run that loses a count and drops a newest line |
| LogQueue.HandOver.PutNowait | src/keelson_interface_docker/logs_follower.py:334-335 | adds the item or reports a full queue |
| LogQueue.HandOver.Enqueue | src/keelson_interface_docker/logs_follower.py:331-346 | undisturbed, the queue gains the item and loses its head iff it was full, and every item ever pushed is queued, published or counted as dropped |
| LogQueue.HandOver.Get | src/keelson_interface_docker/logs_follower.py:373-375 | the publisher takes the oldest item |
| FollowerRegistry.StepAgrees | src/keelson_interface_docker/logs_follower.py:224-302 | every locked step keeps the registry equal to the live followers |
| FollowerRegistry.EveryInterleavingAgrees | src/keelson_interface_docker/logs_follower.py:239-302 | in every interleaving of scans, spawns and exits the registry names exactly the live followers and none twice |
| FollowerRegistry.OneFollowerPerNameIff | src/keelson_interface_docker/logs_follower.py:239-255 | that holds for all runs over a listing iff the listing repeats no name |
| FollowerRegistry.ScanSpawnsUnregistered | src/keelson_interface_docker/logs_follower.py:232-255 | whatever the followers do meanwhile, every scan starts a thread for each listed name not registered when it looks, as often as it is listed, and for no other |
| LogQuery.MergeLogLines | src/keelson_interface_docker/model.py:549-569 | computes the merge, including the two early returns |
| LogQuery.AppendKeyed | src/keelson_interface_docker/model.py:562-567 | the carried key of a line is its own time or the latest one before it in its stream |
| LogQuery.MergePermutes | src/keelson_interface_docker/model.py:549-569 | the merge is a permutation of its inputs |
| LogQuery.UntimedFollowsPredecessor | src/keelson_interface_docker/model.py:552-554 | an untimed line directly follows its predecessor from its own stream, for all inputs |
| LogQuery.OrderedUnique | src/keelson_interface_docker/model.py:568 | the sort key leaves one possible order, whatever the sorting algorithm |
| LogQuery.MergeIsTwoWay | src/keelson_interface_docker/model.py:549-569 | when keys do not step back, sorting equals the linear two-way merge with ties to stdout |
| LogQuery.TailMergeTail | src/keelson_interface_docker/handlers.py:132-148 | the newest k of the merged tails are the newest k of the merged whole streams |
| LogQuery.TimedTailsSuffice | src/keelson_interface_docker/handlers.py:132-148 | for logs whose every line is timed and in order, the newest window of the fetched tails, by lines and bytes, is that of the whole logs |
| LogQuery.MergedInTimeOrder | src/keelson_interface_docker/model.py:561-568 | merging two non-empty streams, whatever they hold, puts the timed lines in order of their nanoseconds |
| LogQuery.TailLawIff | src/keelson_interface_docker/backend.py:169-178 | for a given stdout that holds against every stderr iff the cut keeps the first kept line's key |
| LogQuery.TailLawIffStderr | src/keelson_interface_docker/backend.py:169-178 | and for a given stderr against every stdout, although ties go to stdout |
| LogQuery.LeadingUntimedAtZero | src/keelson_interface_docker/model.py:563-567 | lines before the first time of their stream sort as at time zero |
| LogQuery.CapLogLines | src/keelson_interface_docker/model.py:572-597 | keeps the newest window, and `truncated` iff something was cut |
| LogQuery.FirstWithinBytes | src/keelson_interface_docker/model.py:586-593 | the backward scan stops at the longest suffix within the byte limit |
| LogQuery.CappedIsLongestFit | src/keelson_interface_docker/model.py:572-597 | the window is the longest suffix of at most that many lines and that many bytes of UTF-8 with newlines, a limit of zero or less being none |
| LogQuery.CostIsEncodedLength | src/keelson_interface_docker/model.py:590 | the bytes counted are those of the lines written out |
| LogQuery.HandleLogs | src/keelson_interface_docker/handlers.py:108-154 | the default tail for zero, clamped to the ceiling; stdout alone, stderr alone or the two merged as selected, each as the newest window of the whole log though only tails were fetched; `truncated` iff fewer lines are returned than were fetched |
| LogQuery.FetchLines | src/keelson_interface_docker/backend.py:160-179 | which streams are fetched and merged for each selector |
| SegmentGlob.MatchIffCovered | src/keelson_interface_docker/platform_paths.py:170-186 | matches iff the pattern's segments cover consecutive slices of the path |
| SegmentGlob.MatchConcat | src/keelson_interface_docker/platform_paths.py:170-186 | a concatenated pattern matches iff the path splits between the parts |
| SegmentGlob.GlobstarSuffix | src/keelson_interface_docker/platform_paths.py:152-159 | a trailing globstar matches exactly what has a prefix matching the rest |
| SegmentGlob.TableAgrees | src/keelson_interface_docker/platform_paths.py:170-186 | computing each suffix once gives the backtracking matcher's answer |
| SegmentGlob.WildIsMatch | src/keelson_interface_docker/platform_paths.py:186 | the matching of one segment is the same matching letter by letter: `*` over any slice, `?` over any letter |
| SegmentGlob.NeverWiderThanFnmatch | src/keelson_interface_docker/platform_paths.py:146-150 | for patterns of literals, `*` and `?`, without a globstar, a match has equal length and is also a whole-string match |
| SegmentGlob.NarrowerThanFnmatch | src/keelson_interface_docker/platform_paths.py:146-150 | for every such pattern with a `*`, a path one level deeper that whole-string matching lets through and this matcher does not |
| SegmentGlob.GlobstarReachesTheDirectory | src/keelson_interface_docker/platform_paths.py:176-178 | a trailing globstar also matches whatever the rest matches, which whole-string matching never does for a rest without `*` |
| PathJail.PosixRoundTrip | src/keelson_interface_docker/platform_paths.py:133-140 | the reported relative form reads back as the same components |
| PathJail.SplitSlashJoins | src/keelson_interface_docker/platform_paths.py:84 | a path's pieces with slashes between them are its text |
| PathJail.ShapeAcceptedIff | src/keelson_interface_docker/platform_paths.py:70-95 | a request's text is accepted iff it is not blank, holds no backslash or null, is not absolute and no piece is `..` or `.git` |
| PathJail.AllowedNameIff | src/keelson_interface_docker/platform_paths.py:46-67 | a name may be edited iff it is `.env` or ends, in either case and after a first character, in an allowed suffix |
| PlainWalk.RealpathIsPlainWalk | src/keelson_interface_docker/platform_paths.py:109-114 | resolving with remembered links meets a loop iff following every link where it is met never ends, and otherwise ends at the same place |
| PlainWalk.ResolvesWhereWalkEnds | src/keelson_interface_docker/platform_paths.py:98-130 | where that walk ends, a request is accepted iff it is well-shaped, the end lies under the real root and its name may be edited, and the end is the path |
| PathJail.RealpathIdempotent | src/keelson_interface_docker/platform_paths.py:109-114 | short of a link loop, resolution ends where no link is left and resolving again changes nothing |
| PathJail.PermitIsJailed | src/keelson_interface_docker/platform_paths.py:98-140 | whatever the links, a path is let through iff the request resolves to it, writing is enabled, and it leads, resolved once more, to a place under the real root that matches a write glob; it then lies under the root and has an editable name |
| PathJail.GlobIsAboutWrittenPathIff | src/keelson_interface_docker/platform_handlers.py:226-236 | for each request, all globs that let it through match the written path's own components iff resolving that path again does not move it within the root, for a matcher with patterns for just the names it moves to |
| PathJail.WildSpells | src/keelson_interface_docker/platform_paths.py:186 | a name without wildcards is its own pattern |
| PathJail.NoLoopSettles | src/keelson_interface_docker/platform_paths.py:109-114 | it does not when resolving the request meets no link that is still being followed |
| PathJail.LoopedRequestEscapesGlob | src/keelson_interface_docker/platform_paths.py:133-140 | two links into each other, of any names of which the directory's has no `*` or `[`, for which the written path matches no glob |
| PathJail.LoopedExample | src/keelson_interface_docker/platform_paths.py:133-140 | the same for one concrete tree, request and glob |
| PathJail.PlainTreeResolves | src/keelson_interface_docker/platform_paths.py:98-130 | where no link is on the way a well-shaped path resolves to itself under the root |
| WriteProtocol.StepKeepsInv | src/keelson_interface_docker/platform_write.py:37-115 | every step of every call, failure and crash keeps the protocol's invariant |
| WriteProtocol.EveryRunKeepsInv | src/keelson_interface_docker/platform_handlers.py:223-252 | so does every run |
| WriteProtocol.NoLostUpdate | src/keelson_interface_docker/platform_handlers.py:238-242 | every accepted write directly replaced the version its base hashes, or absence for an empty base, with its whole content; each permission bit of a replaced file is kept, a new file is readable by all and writable by its owner; every path always holds one complete version |
| WriteProtocol.UnfinishedIsPrivate | src/keelson_interface_docker/platform_write.py:102-110 | until it is whole a temporary file holds a prefix of the content and only its owner may read or write it |
| WriteProtocol.VersionReplacedOnce | src/keelson_interface_docker/platform_write.py:37-79 | over every run the accepted writes to a path form a chain: each base is the hash of the content of the accepted write just before it, so no version occurrence is replaced twice |
| WriteProtocol.SameBaseTwice | src/keelson_interface_docker/platform_write.py:42-45 | a second write on the same base is accepted only after the same content was written back; a file is created once |
| WriteProtocol.ReturnedHashIsNextBase | src/keelson_interface_docker/platform_handlers.py:244-246 | the returned hash is accepted as a base until another write to the path is |
| WriteProtocol.ReadHashAcceptedIffWhole | src/keelson_interface_docker/platform_repo.py:248-262 | a read gives one whole version, or of one longer than 1 MiB the flagged first MiB, and its hash is accepted iff it was whole; the size reported is that of the version found afterwards |
| WriteProtocol.TempIsNotEditable | src/keelson_interface_docker/platform_write.py:102 | no temporary name can be the target of a write |
| WriteProtocol.OnlyPermittedPathsChange | src/keelson_interface_docker/platform_handlers.py:226-242 | a path changes only if a call was let through for it, or it is a call's new temporary file |
| WriteProtocol.ChangesStayInJail | src/keelson_interface_docker/platform_handlers.py:226-242 | over every run and for all links, a changed file is the target of one of the run's accepted calls, or the new temporary file of one of its calls beside its target; the target lies under the root, has an editable name and leads to a place that matches a write glob |
| WriteProtocol.ChangesMatchGlobs | src/keelson_interface_docker/platform_guard.py:111-163 | while no accepted request meets a link loop the links stay and every changed file's own relative path matches a write glob |
| WriteProtocol.WorkingTree.CheckBaseSha | src/keelson_interface_docker/platform_write.py:37-79 | which of the three refusals is given, and none iff the base names what is there |
| WriteProtocol.WorkingTree.AtomicWrite | src/keelson_interface_docker/platform_write.py:82-115 | the path gets the new content and keeps each permission bit, or keeps its version and at most a temporary file is left |
| WriteProtocol.WorkingTree.HandleWriteFile | src/keelson_interface_docker/platform_handlers.py:223-269 | written iff permitted, the base names what is there and the system goes along, each refusal iff its own case; the reply carries the content's hash, otherwise no file changes; every call extends the run of the protocol by steps of its own |
| StatusWire.EncodeInjective | src/keelson_interface_docker/status_publisher.py:134-137 | the encoded bytes determine the fields |
| StatusWire.EncodingExamples | src/keelson_interface_docker/status_publisher.py:134-137 | the encoding gives the bytes of the Protocol Buffers guide's examples |
| StatusWire.FieldsInjective | interfaces/ContainerControl.proto:104-162 | the written fields determine the message although zero values are omitted |
| StatusWire.SerializeInjective | src/keelson_interface_docker/status_publisher.py:124-137 | the undelimited concatenation of named messages is uniquely decodable |
| StatusWire.NamelessIsInvisible | src/keelson_interface_docker/status_publisher.py:134-137 | a message without any set field would leave no trace in it |
| StatusPublisher.Digest | src/keelson_interface_docker/status_publisher.py:134-137 | feeding message by message hashes the concatenation |
| StatusPublisher.DigestExact | src/keelson_interface_docker/status_publisher.py:125-133 | equal digests mean equal container lists |
| StatusPublisher.ContainerStatusPublisher.Publish | src/keelson_interface_docker/status_publisher.py:139-149 | the sequence number advances only after the put |
| StatusPublisher.ContainerStatusPublisher.RunTick | src/keelson_interface_docker/status_publisher.py:151-182 | one pass of the loop is one step of the run, failures included |
| StatusPublisher.EveryMessageSound | src/keelson_interface_docker/status_publisher.py:151-182 | over every run sequence numbers are 0, 1, 2, ..., CHANGE is sent iff the list differs from the previous message or is the first, HEARTBEAT only a heartbeat or more after it |
| StatusPublisher.SendsExactlyWhen | src/keelson_interface_docker/status_publisher.py:153-173 | after any run one more tick sends its snapshot iff it is the first or differs from the last message, as CHANGE, or a heartbeat has passed, as HEARTBEAT, and nothing if the snapshot or the put fails |
| StatusPublisher.SubscriberAgrees | src/keelson_interface_docker/status_publisher.py:153-173 | after every successful tick the last message is the current snapshot and is fresh |
| StatusPublisher.MessageGapBounded | src/keelson_interface_docker/status_publisher.py:159-163 | with successful ticks at most d apart, messages are at most a heartbeat and d apart |
| StatsPublisher.ContainerStatsPublisher.SweepAll | src/keelson_interface_docker/stats_publisher.py:117-176 | one sweep's rows and the cache it leaves |
| StatsPublisher.ContainerStatsPublisher.RunTick | src/keelson_interface_docker/stats_publisher.py:178-216 | a failed listing leaves cache and sequence alone; a failed put leaves the new cache |
| StatsPublisher.CacheIsLastSweep | src/keelson_interface_docker/stats_publisher.py:159-175 | the cache's keys are exactly the ids of the sweep's entries |
| StatsPublisher.RatePresentIff | src/keelson_interface_docker/model.py:478-507 | in every run a byte rate is present iff the latest completed sweep, failed puts included, visited that id with the counter known, time has passed and the counter has not gone back; rate times window is the difference of the two raw counters |
| StatsPublisher.LoadPresentIff | src/keelson_interface_docker/model.py:478-489 | in every run a CPU load is present iff that visit shows processor time not decreased, host time advanced and cores are known, elapsed time untested; load times host time is processor time in percent of one core |
| StatsPublisher.CacheIsSeenLast | src/keelson_interface_docker/stats_publisher.py:126-176 | over every run the cache holds for each id the reading of its last sampled visit in the latest completed sweep |
| StatsPublisher.RowMeasures | src/keelson_interface_docker/model.py:457-507 | a row repeats the network and block totals read, and carries exactly the window, rates and load due between the two readings, which measure the difference |
| StatsPublisher.RowIffSampled | src/keelson_interface_docker/model.py:324-344 | a visit has a row iff the call worked and both processor totals are positive |
| StatsPublisher.VisitHasEntry | src/keelson_interface_docker/stats_publisher.py:138-160 | every such visit of a sweep has its row, in the order of the visits |
| StatsPublisher.PublishedRowsMeasure | src/keelson_interface_docker/stats_publisher.py:178-216 | every message is sent by exactly one sweep of the run, its i-th row is that of the sweep's i-th sampled visit, repeats the totals of its reading, and carries exactly the window, rates and load due to, and measured by, that reading and the one in the completed sweep before |
| StatsPublisher.PublishedTotalsMove | src/keelson_interface_docker/stats_publisher.py:159-183 | between two messages with no other completed sweep in between, each rate times its window is what the published total of that id and counter moved by |
| StatsPublisher.FirstSightHasNoRates | src/keelson_interface_docker/model.py:390-394 | after a missed sweep the next row has no rate, window or load |
| StatsPublisher.RatesIntegrateToCounters | src/keelson_interface_docker/model.py:356-368 | rates times windows add up to the counter's movement over any run in which the container is rated throughout |
| StatsPublisher.CacheFromIsCacheAfter | src/keelson_interface_docker/stats_publisher.py:171-175 | that run starts from the cache the publisher really has |

## Left out

- Assumptions about foreign code: SHA-256 and BLAKE2b are injective (and SHA-256 never empty), UTF-8 decoding and RFC 3339 parsing are functions, a put that raises has not delivered, Protocol Buffers writes fields in number order.
- Level sniffing, publisher keys and payloads, reason strings, summarizers and start-up flag checks: easy case tables.
- The Docker client, zenoh, git queries, the CLI and the health check: the backend is an arbitrary source of listings, frames, readings and failures.
- Floating point: clock readings, stamps and rates are reals.
- Sorting a listing by name: the publishers' snapshot is taken as already sorted.
- Failure of `thread.start()`, which would leave a registered name without a follower.
- What `stop()` unblocks, and lines still queued when the publisher loop ends.
- Docker's own treatment of `since` and `tail` across a reconnect.
- The runtime's tail is taken to be the last k lines of each stream, each of which parses to a line.
- Summing network interfaces and block devices, memory, limits and throttling fields of a usage row.
- Writers other than this process between the hash check and the replace; power loss.
- NeverWiderThanFnmatch: whole-string matching is modelled for literals, `*` and `?`; a `[` stands for itself there. The other results of the matcher hold for any matching of one segment.
- GlobIsAboutWrittenPathIff: assumes that each name the path moves to has a pattern matching it alone, as every name has for `fnmatchcase` with its `*`, `?` and `[` in brackets; of the matcher modelled here it is shown for names without wildcards.
- Resolved targets below `.git`: the code tests the request text only, and so does the model.
- `delete_file` and `sync`, which this build does not implement, and reading back the repository status after a write.
