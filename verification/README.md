# Verified models of OpenList's transfer, merge and partition algorithms

OpenList presents many cloud drives as one file system. Most of its drivers are plumbing around a remote API,
but some carry algorithms of their own: choosing and pairing replicas, keeping request rates, merging shares into
one tree, resuming uploads, cutting and hashing files, parsing indented text. The modules here model those
algorithms and prove what they guarantee. Remote services, the file system behind an alias, random numbers, clocks
and hash functions are parameters, so every statement holds for all of their answers.

`dafny verify dfyconfig.toml` checks everything.

## The parts

- **Alias** (`alias_roots`, `alias_selection`, `alias_pairing`, `alias_driver`, `alias_reorder`, `alias_put`). The
  configured lines become root directories; `Get` lists the replicas of a path; a stateful filter walks the list and
  compacts the usable replicas in place; moves and copies pair sources with destinations, the same mount first, and
  reorder the list they came from.
- **Draws** (`weighted_draw`). The prefix sums behind the choice of a replica by free space and of a passive FTP port.
- **Request tokens** (`request_tokens`). The timed semaphore of the 123 open platform, as a machine whose steps are
  requests, timers and the clock in any interleaving.
- **Limiter registry** (`limiter_registry`). The reference-counted map of limiters, the objects in place and the
  life cycles of any number of drivers interleaved.
- **Share overlay** (`base64`, `share_codec`, `share_overlay`). Several shares as one directory tree whose state
  travels inside object ids, against an overlay defined without ids.
- **Slices** (`arithmetic`, `slicing`, `slice_hash`, `upload_runs`, `block_upload`). Three ways to compute slice digests,
  and the resumable upload with its saved block list, concurrent tasks and expiring upload id: what the answers make of
  it, and the objects that do it.
- **Link tree** (`strings`, `link_tree`, `link_forest`, `link_render`, `link_lookup`). The indentation parser on
  heap nodes, the recursive reading of the same text, the round trip through rendered text, sizes and lookup.
- **Base 64 to hexadecimal** (`base64_hex`), **JSON merge** (`json_merge`, on aliased heap objects),
  **part plans** (`part_plans`) and **folder deletion** (`folder_deletion`).

## Where the code and its description part

- `getMoveObjs` says in a comment that the rest of the sources covers the rest of the destinations
  (drivers/alias/util.go:439). That holds exactly when at least as many selected sources as destinations have a
  storage; the guard above it counts selected sources only. `AliasDriver.Move` states both outcomes;
  `AliasDriver.CountGuardIsNotEnough` is the smallest case, and there `AliasDriver.MovePanics` ends in an index out of
  range.
- The pairing of moves and copies works in the front of the list it was given. For the root of an alias with a single
  root directory that is the driver's own list, so a copy into the root can leave an entry at its head that is no
  directory (`AliasReorder.RootStaysExactly`, `AliasReorder.RootReordered`).
- `getPutObjs` hands the size of the directory entry, not that of the uploaded file, to the free-space check. The
  chosen replica has room for the file exactly up to the size of that entry (`AliasPut.RoomForFileExactly`); with an
  entry of size zero one free byte is enough to be chosen (`AliasPut.OneByteIsEnough`).
- An alias with several root directories cannot reach one whose name path cleaning changes: "", "/", ".", ".." and
  names with a backslash (`AliasRoots.ReachableExactly`). On the only root directory of an alias nothing is looked up,
  so every policy counts all configured paths as usable.
- A line of the link tree goes to the nearest shallower folder only when nothing between them closed that folder;
  a file on the folder's own level does (`LinkRender.FileClosesFolder`).
- A share link id that begins with "shares:" makes its folders invisible (`ShareOverlay.OverlayExactly`). So would an
  empty one, which the configuration drops (drivers/139/util.go:605-607).
- A request that is told to retry as often as its endpoint allows requests per second waits for its own tokens for
  ever; for endpoints with one request per second a single retry is enough (`RequestTokens.OneRetryBlocks`).
- After a second upload-id expiry the Baidu upload still sends its create request although nothing was sent under
  the new id (`UploadRuns.IncompleteExactly`, `BlockUpload.ExpiresTwice`).
- Saved upload progress is found again whatever the slice size, but its block numbers mean the same bytes only under the
  slice size they were counted with (`Slicing.ResumedBytes`).
- `SplitFile` has no branch for a file of exactly 9 GiB and reads the first of no chunks.
- Directory markers whose blob name ends in a slash, as `mkDir` makes them, are submitted for deletion under the name
  without it. `deleteFolder` then succeeds with nested markers still stored; it submits every listed blob exactly
  once, and empties the directory, exactly when there is none (`FolderDeletion.ListingExactly`,
  `FolderDeletion.FolderGoneExactly`).

## Model

| member | source | states |
|---|---|---|
| AliasRoots.Base | drivers/alias/util.go:84 | the last element of a path contains a slash only when it is the slash itself |
| AliasRoots.GetPair | drivers/alias/util.go:80-85 | the name of a configured line contains a slash only when it is "/" |
| AliasRoots.NamedLine | drivers/alias/util.go:80-85 | a line with a name in front of its first colon is that name and the rest, unless a slash stands in front of the colon |
| AliasRoots.PlainLine | drivers/alias/util.go:80-85 | a line without a colon is a path, named after its last element |
| AliasRoots.PaddedLine | drivers/alias/driver.go:45-50 | white space around a line does not matter, and lines of nothing else count for nothing |
| AliasRoots.GroupedStep | drivers/alias/driver.go:50-55 | filing one more line keeps the grouping: names once, in order of first appearance, each with its paths in order |
| AliasRoots.Alias.Init | drivers/alias/driver.go:41-84 | the maps group exactly the configured lines; failure exactly when there is none; which root each number of groups gives |
| AliasRoots.EveryPathOnce | drivers/alias/driver.go:45-56 | the paths under all root directories together are the configured paths, none lost, none doubled |
| AliasRoots.CleanedBelow | pkg/utils/path.go:19-25 | cleaning a path keeps its plain elements and drops an empty name |
| AliasRoots.AskedClean | internal/op/fs.go:132 | no path that has been cleaned asks for a name that cleaning changes |
| AliasRoots.ReachableExactly | drivers/alias/util.go:87-97 | every path below a root directory, cleaned on its way, asks for that directory and the right remainder iff the name is not empty, "." or ".." and holds neither kind of slash |
| AliasRoots.RootsBelow | drivers/alias/util.go:87-97 | and is then looked up in the paths configured under that name, in order |
| AliasRoots.OnlyRootServesAll | drivers/alias/util.go:87-90 | with one root directory every path is looked up, as it is, in all configured paths in order |
| AliasRoots.UpUndoesDown | pkg/utils/path.go:19-25 | in a path that is cleaned, going up undoes going down and stays at the top |
| AliasRoots.LostNames | drivers/alias/util.go:80-85 | which configured names are lost: a slash comes from the path "/" only |
| AliasRoots.ColonNameIsLost | drivers/alias/util.go:80-97 | the line ":/y" is listed under the empty name, and what lies below it is asked for elsewhere |
| AliasRoots.RootListDistinct | drivers/alias/driver.go:62-76 | the list of the only root directory holds no object twice |
| AliasRoots.RootIsUnchecked | drivers/alias/driver.go:63-75 | on the only root directory all configured paths count as usable whatever the file system answers |
| AliasSelection.Filter.Step | drivers/alias/util.go:187-223 | what the filter closure answers and how its captured variables change, for every policy |
| AliasSelection.TurnKeepsWalking | drivers/alias/util.go:195-222 | each answer of the filter keeps its count of usable entries exact, or ends the walk with the error the policy promises |
| AliasSelection.WalkVerdict | drivers/alias/util.go:165-172 | a walk that ends without error has kept exactly what the policy promises |
| AliasSelection.GetAllObjs | drivers/alias/util.go:123-173 | the compacted prefix is the policy's promise about the original list, defined by counting; the rest of the array, unread entries included, is untouched |
| AliasSelection.Get | drivers/alias/driver.go:114-170 | fails iff no root resolves; otherwise the list starts with the first root that does, with the nil marker iff roots before it did not |
| AliasSelection.ListingAt | drivers/alias/driver.go:151-167 | which entry of the list belongs to which root, and that its placeholder is usable iff the root is |
| AliasSelection.UsableRootsExactly | drivers/alias/util.go:130-145 | the usable roots are in configuration order, are exactly those that resolve to a matching object, and are all of them iff all match |
| AliasSelection.SurvivorsAreUsableRoots | drivers/alias/util.go:123-173 | the survivors of a list built by Get are the objects of the usable roots, in order |
| AliasSelection.SelectionOverRoots | drivers/alias/util.go:187-223 | for lists built by Get: all-strict succeeds iff every root is usable, deterministic iff exactly one is, deterministic-or-all iff one or all are, each with its own error otherwise; first gives the first, the others all in order; never an object twice |
| AliasSelection.ReplicaTakesPart | drivers/alias/util.go:110-145 | a later root takes part iff it resolves to the head's kind and, for a checked file, to the head's size with no other value for a hash both report; an empty hash is not compared |
| AliasSelection.DigestsDiffer | drivers/alias/util.go:110-145 | two replicas of one size whose md5 differ: the strictest policy refuses to write |
| AliasSelection.DigestKindsDiffer | drivers/alias/util.go:110-145 | two replicas of one size with digests of different kinds: both are written |
| AliasSelection.SelectionDistinct | drivers/alias/util.go:123-173 | from a list without repetition no policy selects an object twice |
| AliasSelection.ListingDistinct | drivers/alias/driver.go:151-167 | lists built by Get have no repetition |
| AliasPairing.BagMonotone | drivers/alias/util.go:405-415 | sources that are among others live on mounts that are among theirs, with multiplicity |
| AliasPairing.PairingBound | drivers/alias/util.go:390-445 | no assignment of sources to destinations whatsoever has more same-mount pairs than the sum over mounts of the smaller count |
| AliasPairing.GroupByMount | drivers/alias/util.go:405-415 | fails iff some destination has no storage; otherwise the groups hold every destination once under its mount |
| AliasPairing.GreedyStep | drivers/alias/util.go:424-436 | one greedy choice keeps the count of same-mount pairs at the optimum of what was seen |
| AliasPairing.MatchByMount | drivers/alias/util.go:416-438 | the loop pairs as many sources with destinations of their own mount as is possible and loses no reachable source and no destination |
| AliasPairing.ReachableCount | drivers/alias/util.go:418-438 | the sources that take part are the selected ones with a storage, as often as they are selected |
| AliasPairing.GetMoveObjs | drivers/alias/util.go:402-445 | both lists are permutations of the reachable sources and of the destinations, with the optimal number of same-mount pairs, for every iteration order; which destination comes first; the errors and when, with the list untouched |
| AliasPairing.ReachableIsBest | drivers/alias/util.go:418-445 | sources dropped for want of a storage never cost a same-mount pair |
| AliasPairing.ServeByMount | drivers/alias/util.go:362-377 | every destination on a mount with sources gets the first source there; the others are left over |
| AliasPairing.GetCopyObjs | drivers/alias/util.go:347-387 | every destination exactly once, its source the first on its mount if any, otherwise the first of all or the one its draw falls on, as the read policy wants; which destination comes first; errors in the order of the checks, with the list untouched |
| AliasPairing.GoodSourceExactly | drivers/alias/util.go:362-385 | which source that is, position by position in the list of sources |
| AliasPairing.LeaderStaysExactly | drivers/alias/util.go:362-385 | the first destination keeps its place for every iteration order iff the first source that shares its mount with any destination shares it with that one, or, when no source does, it is the only one; the same for moves and copies |
| AliasDriver.Select | drivers/alias/util.go:225-230 | the selected objects are those the policy promises, never an empty list, and are the front of the list from then on |
| AliasDriver.ReorderedBy | drivers/alias/util.go:357-386 | the paired destinations, as a permutation of the selected ones led by the first, stand in the front of the list they were selected from, with what was behind them untouched |
| AliasDriver.Move | drivers/alias/driver.go:371-386 | which error; an index failure iff fewer reachable sources than destinations, after every reachable source was moved once to a destination of its own with most same-mount transfers; otherwise every reachable source moved or removed once, every destination filled once, with most same-mount transfers; how the target's list is left reordered |
| AliasDriver.IssueMove | drivers/alias/driver.go:373-383 | transfers in order, then removals of the sources left over; stops short iff sources run out |
| AliasDriver.Copy | drivers/alias/driver.go:398-408 | one copy into each selected destination from a source the read policy allows; which error otherwise; how the target's list is left reordered |
| AliasDriver.MovePaths | drivers/alias/driver.go:114-170 | both lists from Get, then the move: not found iff no root of one of the paths resolves, otherwise the outcome for exactly those lists |
| AliasDriver.CopyPaths | drivers/alias/driver.go:114-170 | the same for copies |
| AliasDriver.CountGuardIsNotEnough | drivers/alias/util.go:402-439 | a file system and two paths whose selections pass the guard while the destination is left without a source |
| AliasDriver.MovePanics | drivers/alias/driver.go:371-386 | for them the move ends in the index failure |
| AliasReorder.RootSelected | drivers/alias/driver.go:62-76 | the whole list of the only root directory is selected, each object once, iff the policy is not one of the two that look for one destination or there is only one path |
| AliasReorder.RootStaysExactly | drivers/alias/driver.go:106-111 | after a move or copy into the root, the object at its head is a directory for every iteration order iff the first source that shares its mount with a configured path shares it with the first one, or none does and one path is configured |
| AliasReorder.RootReordered | drivers/alias/util.go:362-386 | two paths, a file under the second only, and a copy after which the root's own list is swapped and its head is no directory |
| AliasPut.DrawnHasRoom | drivers/alias/util.go:294-299 | a drawn replica has details, room for the size asked for, and weight: without weight nothing is drawn |
| AliasPut.GetRandomObjByQuotaBalanced | drivers/alias/util.go:259-318 | the replica the draw falls to when any has weight, otherwise the drawn one of those without details unless strict; nothing exactly when neither exists |
| AliasPut.DrawnByFreeSpace | drivers/alias/util.go:294-337 | while all free space together fits 64 bits, a replica is drawn by as many random numbers as it has free bytes, and never when the size does not fit |
| AliasPut.RoomForFileExactly | drivers/alias/util.go:247-252 | every storage report and draw gives a replica with room for the uploaded file iff the file is no larger than the directory entry, or than one byte when the entry has size zero |
| AliasPut.OneByteIsEnough | drivers/alias/util.go:232-257 | a directory entry of size zero and a single free byte: any larger file is sent there, even under strict quota |
| AliasPut.GetPutObjs | drivers/alias/util.go:232-257 | which selected replicas receive an upload under each policy; what is compared with the free space is the directory entry, and up to which file size that is enough |
| WeightedDraw.OwnerUnique | drivers/alias/util.go:328-335 | no draw belongs to two items |
| WeightedDraw.SelectRandom | drivers/alias/util.go:320-337 | the item whose prefix interval holds the draw, never one without weight, with 64-bit wrap-around of the total; the last return is not reached |
| WeightedDraw.DrawCount | drivers/alias/util.go:328-336 | how many draws choose an item, wrap-around included |
| WeightedDraw.FairExactly | drivers/alias/util.go:321-327 | every item is chosen by exactly as many draws as it weighs iff the sum does not wrap |
| WeightedDraw.PasvPortGetter.FetchNext | server/ftp.go:218-229 | the group and offset that own the draw; the failing return is not reached |
| WeightedDraw.NewPortMapper | server/ftp.go:235-304 | on the text of the setting: nil iff it is empty or some piece is unusable; otherwise all groups in order with their total length |
| WeightedDraw.PortsExactly | server/ftp.go:242-268 | a written port is read back unchecked; a written range iff it does not end before it starts and both ends lie between 1024 and 65535 |
| WeightedDraw.GroupExactly | server/ftp.go:262-300 | ports in front of a colon are shown, ports behind it listened on, and must be as many; without a colon they are the same |
| WeightedDraw.EveryDrawServed | server/ftp.go:218-229 | every draw leads to exactly one port of one group |
| WeightedDraw.EveryPortReached | server/ftp.go:218-229 | every port of every group is reached by exactly one draw |
| RequestTokens.ApiInfo.Require | drivers/123_open/types.go:17-21 | taking a token is the machine's step of that name |
| RequestTokens.ApiInfo.Release | drivers/123_open/types.go:23-29 | a request that returns, with or without an answer, starts a timer for each token it took and frees none yet |
| RequestTokens.ApiInfo.TimerFires | drivers/123_open/types.go:24-28 | a timer frees one token, as the machine's step does |
| RequestTokens.TokenLeavesExactly | drivers/123_open/types.go:24-28 | the tokens of a returning request leave the channel from exactly one second after its return on |
| RequestTokens.StepKeepsInv | drivers/123_open/types.go:17-29 | every event keeps the token count, the ages of freed tokens and the bound on every past second |
| RequestTokens.RunKeepsInv | drivers/123_open/util.go:40-90 | so does every interleaving of requests, retries, timers and the clock |
| RequestTokens.RateBound | drivers/123_open/types.go:11-46 | in every run at most qps requests start in any second |
| RequestTokens.StuckForever | drivers/123_open/util.go:62-63 | once all tokens belong to waiting requests, no run serves any of them |
| RequestTokens.CanProceed | drivers/123_open/types.go:17-29 | otherwise some run serves the waiting request |
| RequestTokens.BlockedExactly | drivers/123_open/util.go:41-89 | waiting requests are blocked for good iff every token is held by a request that waits itself |
| RequestTokens.RetriesBlock | drivers/123_open/util.go:62-63 | a request holding qps tokens of its own is blocked for good |
| RequestTokens.OneRetryBlocks | drivers/123_open/util.go:62-85 | with one request per second a single retry blocks |
| LimiterRegistry.Registry.GetLimiterForUser | drivers/aliyundrive_open/limiter.go:40-63 | the table afterwards, as a function of the one before, and the object returned |
| LimiterRegistry.Registry.CleanUp | drivers/aliyundrive_open/limiter.go:43-50 | unregisters exactly the unused limiters other than the global one |
| LimiterRegistry.Registry.Release | drivers/aliyundrive_open/limiter.go:80-87 | one user fewer, nothing unregistered, nothing for nil |
| LimiterRegistry.TakeKeepsInv | drivers/aliyundrive_open/limiter.go:40-63 | acquiring keeps counters equal to holders and evicts no held limiter |
| LimiterRegistry.GiveBackKeepsInv | drivers/aliyundrive_open/limiter.go:80-87 | giving back keeps counters equal to holders |
| LimiterRegistry.CleanKeepsInv | drivers/aliyundrive_open/limiter.go:43-50 | cleaning up never drops a limiter someone holds |
| LimiterRegistry.RegisteredExactly | drivers/aliyundrive_open/limiter.go:40-62 | after an acquisition a user has a limiter registered iff some driver holds it, or it is the one for first requests and was there |
| LimiterRegistry.GlobalStays | drivers/aliyundrive_open/limiter.go:43-50 | in every run the limiter for first requests, once there, is never dropped or replaced |
| LimiterRegistry.RunKeepsInv | drivers/aliyundrive_open/driver.go:37-72 | every interleaving of Init and Drop steps of any number of drivers keeps all of it |
| LimiterRegistry.RegistrySafety | drivers/aliyundrive_open/driver.go:37-72 | in every run a held limiter is registered, its counter is its number of holders, and two drivers share one iff they hold it for the same user |
| Base64.SextetsRoundTrip | drivers/189/help.go:29-43 | regrouping bytes into sextets loses nothing, for all three tail lengths |
| Base64.RawUrlRoundTrip | drivers/139/util.go:564-571 | unpadded URL-safe base 64 (section 5 of RFC 4648) decodes to what was encoded |
| ShareCodec.UnescapeEscape | drivers/139/util.go:537-549 | percent-encoding of a path segment (section 2.1 of RFC 3986) is undone |
| ShareCodec.EscapeHasNoBar | drivers/139/util.go:537-539 | an encoded field never contains the separator |
| ShareCodec.SingleRoundTrip | drivers/139/util.go:537-553 | a reference survives packing iff its link id is not empty |
| ShareCodec.PlainPrefix | drivers/139/util.go:568 | a packed reference looks like a packed list iff its link id begins with the marker |
| ShareCodec.LoneRoundTrip | drivers/139/util.go:555-584 | a lone reference survives iff its link id is non-empty and does not begin with the marker; otherwise the id is rejected |
| ShareCodec.RefsRoundTrip | drivers/139/util.go:555-584 | exactly which lists of references survive packing into an id and unpacking |
| ShareOverlay.MergeRepresents | drivers/139/util.go:676-703 | the merged listing shows each name once in order of first appearance; its first line decides file or folder; a folder carries all same-named folders' references in listing order |
| ShareOverlay.MergeUnique | drivers/139/util.go:676-703 | names in a merged listing are unique, whatever the ids decode to |
| ShareOverlay.ShareGetMergedFiles | drivers/139/util.go:668-708 | the loops with their index map compute the merge; an error iff nothing was listed and some share failed |
| ShareOverlay.MergeItems | drivers/139/util.go:680-702 | one listing merged into what is there, the index map kept exact |
| ShareOverlay.EnterPart | drivers/139/util.go:724-746 | the entry of that name and the references to go on with; a file only as the last part |
| ShareOverlay.ShareGetObj | drivers/139/util.go:710-755 | the loop over path parts is the recursive lookup |
| ShareOverlay.ResolvesLikeOverlay | drivers/139/util.go:710-755 | for every service and path: found, with the same references, or the same error as in the overlay |
| ShareOverlay.BadLinkDisagrees | drivers/139/util.go:567-574 | one bad root link id gives a service and a path where lookup and overlay differ |
| ShareOverlay.OverlayExactly | drivers/139/util.go:668-755 | lookup is the overlay lookup for every service and path iff no root link id is empty or begins with the marker |
| ShareOverlay.ConfiguredTree | drivers/139/util.go:612-619 | the configured shares with usable link ids resolve as the overlay |
| ShareOverlay.PageLookup | drivers/139/util.go:621-666 | what one page lists under a name: a folder before a file, all folders in order, the first file |
| ShareOverlay.SegmentExactly | drivers/139/util.go:668-708 | on the pages the service answers: the first share that lists a name decides its kind, a folder is all folders of that name of every share in order, a file the first file of the deciding share; which error otherwise |
| ShareOverlay.PathStep | drivers/139/util.go:721-745 | a longer path goes on inside the folder its first segment leads to, and fails behind a file |
| ShareOverlay.ItemExactly | drivers/139/util.go:621-755 | the item the lookup gives for one segment: its kind, its name, and where its id leads, in terms of the pages |
| Slicing.BlocksTile | drivers/baidu_netdisk/driver.go:219-228 | every block is non-empty and ends where the next starts; the last ends the file |
| Slicing.AssembledPrefix | drivers/baidu_netdisk/driver.go:324-327 | the blocks put together in order are the file |
| Slicing.PlaceExactly | drivers/baidu_netdisk/driver.go:324-327 | a block counted with one slice size has the same offset and length under another iff the sizes agree, or it is the first block and the whole file for both |
| Slicing.ResumedBytes | drivers/baidu_netdisk/driver.go:276-338 | a call that resumes with another slice size reads the right bytes for all blocks iff the file is a single block for both, whatever the content |
| SliceHash.HashedGrows | drivers/189/util.go:528-549 | a piece that does not overrun the current slice keeps digests and buffer those of the whole stream |
| SliceHash.SliceHashWriter.Write | drivers/189/util.go:521-556 | after any write the recorded digests and the buffer are those of everything written so far |
| SliceHash.StreamDigests | drivers/189/util.go:342-345 | the final step turns them into the digests of all slices, one for the empty file |
| SliceHash.DigestAt | drivers/189/util.go:325-345 | one digest for each block of a non-empty file, that of the block |
| SliceHash.HashStream | drivers/189/util.go:325-345 | for every way the stream is cut into writes, the digests of the slices of the concatenation |
| SliceHash.ComputeSliceMD5sFromReader | drivers/189pc/torrent.go:301-329 | the same digests for every non-empty content, none for the empty one |
| SliceHash.FastUploadDigests | drivers/189pc/utils.go:936-993 | the same digests, one for the empty file |
| SliceHash.JoinRule | drivers/189/util.go:354-359 | there is more than one digest iff the file is longer than one slice |
| UploadRuns.RoundTracked | drivers/baidu_netdisk/driver.go:328-346 | whatever becomes of its tasks, a round marks only blocks that are stored: every block asked for under the id stays stored there or listed |
| UploadRuns.PendingTracked | drivers/baidu_netdisk/driver.go:355 | filtering the list forgets the marks and nothing else |
| UploadRuns.CallTracked | drivers/baidu_netdisk/driver.go:275-391 | after any call, what the cache remembers is true of what is stored, the server forgets nothing, and a create request claims no more than it has |
| UploadRuns.StoredExactly | drivers/baidu_netdisk/driver.go:299-349 | after a call the server has what it had before and the blocks, under their own ids, of the lists the call's rounds begin with whose tasks reached it, heard of or not |
| UploadRuns.ErrorExactly | drivers/baidu_netdisk/driver.go:299-352 | a round succeeds iff every block of its list is reported as sent and the call is not cancelled; when it counts as expired |
| UploadRuns.ResultExactly | drivers/baidu_netdisk/driver.go:191-393 | a call reports success iff the content is there already, by its digest or by the precreate request, or its upload goes through; a call that sends nothing leaves the server as it was |
| UploadRuns.CreateLeaves | drivers/baidu_netdisk/driver.go:299-387 | what is cached when the create request fails: nothing if the first round had succeeded, the new list if an id had expired |
| UploadRuns.IncompleteExactly | drivers/baidu_netdisk/driver.go:299-383 | over all caches and answers: a create request with missing blocks is sent iff the first list's round and that of the second reply end in an expired id and the third reply wants some block |
| UploadRuns.CompleteExactly | drivers/baidu_netdisk/driver.go:299-383 | in that case every wanted block is missing; in every other case none is, and every block first asked for under the id is among those stored under it |
| UploadRuns.ResumedExactly | drivers/baidu_netdisk/driver.go:276-378 | after a call that ends in a failed round, the first or the second, whatever the error, the next one goes on under the id of that round with exactly the blocks no task reported as sent, or starts afresh when the entry is gone |
| UploadRuns.AllStoredExactly | drivers/baidu_netdisk/driver.go:191-393 | over any number of calls the server has exactly what it had at first and what the calls delivered |
| UploadRuns.RequestsExactly | drivers/baidu_netdisk/driver.go:191-393 | over any number of calls: at most one create request a call, in order, with missing blocks iff that call's own id expires twice and blocks are wanted |
| UploadRuns.RequestsComplete | drivers/baidu_netdisk/driver.go:191-393 | every create request has every block asked for under its id among those delivered under it, and nothing left, except there, where all of them are left |
| BlockUpload.PiecesDecide | drivers/baidu_netdisk/driver.go:324-338 | blocks are stored with the bytes of their place, so which blocks the server has decides what it has |
| BlockUpload.Upload.Precreate | drivers/baidu_netdisk/driver.go:396-428 | each of the server's replies, and that a new list starts with everything wanted still listed |
| BlockUpload.Upload.UploadRound | drivers/baidu_netdisk/driver.go:304-349 | the list, the error and exactly which blocks get stored, with their bytes, after tasks that finish in any given order, with any of them failing or half-failing |
| BlockUpload.Upload.FailRound | drivers/baidu_netdisk/driver.go:354-377 | what is left is saved; an expired id starts over with the server's next list, saved instead |
| BlockUpload.Upload.SaveUploadProgress | drivers/base/upload.go:16-21 | the cache refers to the very response object |
| BlockUpload.Upload.GetUploadProgress | drivers/base/upload.go:25-31 | what was saved or nothing, and the entry is gone |
| BlockUpload.Upload.UploadRounds | drivers/baidu_netdisk/driver.go:299-378 | the ending of the loop, what it leaves in the cache and what it gets stored as a function of the answers |
| BlockUpload.Upload.Put | drivers/baidu_netdisk/driver.go:191-393 | result, create request with all it records, stored blocks and the progress left in the cache as a function of what the cache and the server held and the answers; success exactly as the answers decide it |
| BlockUpload.CreateHonest | drivers/baidu_netdisk/driver.go:381-383 | what the create request claims, in bytes, follows from which blocks are stored |
| BlockUpload.Session | drivers/baidu_netdisk/driver.go:191-393 | over any number of calls, failing and resumed, the create requests, the stored blocks and the final cache are exactly those of the fold over the calls |
| BlockUpload.SessionComplete | drivers/baidu_netdisk/driver.go:191-393 | every create request of a session records the blocks the server first asked for under its id; all of them are stored there with the bytes of their place, unless its own call expired twice and blocks were wanted: then all of them are left |
| BlockUpload.StoredFile | drivers/baidu_netdisk/driver.go:323-338 | when the whole file was asked for and sent, what the server has under the id, put together block by block, is the file |
| BlockUpload.SessionFiles | drivers/baidu_netdisk/driver.go:191-393 | so it is after any session, for each create request under whose id every block was asked for and whose call did not expire twice |
| BlockUpload.ExpiresTwice | drivers/baidu_netdisk/driver.go:299-383 | for every file and non-empty list, a run of Put that ends in a create request with every block missing |
| BlockUpload.Interrupted | drivers/baidu_netdisk/driver.go:275-393 | for every file and every way the first round may fail with its upload id still good, two runs of Put, the second resuming, that end in one create request for the whole file with the file stored under its id |
| LinkTree.StackIncreases | drivers/123_link/parse.go:57-62 | levels on the stack increase strictly |
| LinkTree.PoppedStack | drivers/123_link/parse.go:57-76 | after popping, the top is the folder the line belongs to, and the stack is the open folders again |
| LinkTree.PopTo | drivers/123_link/parse.go:59-62 | pops exactly the levels not below the line's and never the root |
| LinkTree.LineExactly | drivers/123_link/parse.go:36-56 | what a line with n blanks in front is: bad when they are odd, skipped when only white space follows, a folder of level n / 2 when it ends in a colon, a file otherwise |
| LinkTree.BadExactly | drivers/123_link/parse.go:36-56 | the text is bad iff one of its lines is |
| LinkTree.AddLine | drivers/123_link/parse.go:57-83 | the node is attached to its line's folder, all other children stay, the stack stays right |
| LinkTree.BuildTree | drivers/123_link/parse.go:32-86 | fails iff some line is bad; otherwise every node's children are the nodes of its lines, in line order |
| LinkForest.TopsExtend | drivers/123_link/parse.go:57-83 | one more line is a new top of a range iff no folder of the range takes it |
| LinkForest.RootKidsAreTops | drivers/123_link/parse.go:57-83 | the root's children are the tops of the whole text |
| LinkForest.FolderKidsAreTops | drivers/123_link/parse.go:57-83 | a folder's children are the tops of its block |
| LinkForest.BuiltTree | drivers/123_link/parse.go:32-86 | the nodes on the heap show the recursive reading of the text |
| LinkRender.ForestOfFlattened | drivers/123_link/parse.go:14-31 | reading the lines of a forest, wherever they stand, gives the forest |
| LinkRender.ReadWritten | drivers/123_link/parse.go:36-56 | a line written with two blanks a level is read back as itself |
| Strings.SplitJoin | drivers/123_link/parse.go:33 | joined parts without the separator are split again |
| LinkRender.RenderRoundTrip | drivers/123_link/parse.go:32-86 | parsing the rendering of any well-formed tree reads exactly that tree |
| LinkRender.BuildRendered | drivers/123_link/parse.go:32-86 | and builds nodes that show it |
| LinkRender.ParentIsNearestExactly | drivers/123_link/parse.go:57-62 | a line goes to the nearest shallower folder iff nothing between closed it |
| LinkRender.FileClosesFolder | drivers/123_link/parse.go:57-83 | three lines where it does not |
| LinkLookup.GetByPath | drivers/123_link/types.go:20-37 | nil iff no chain of children from the node spells the path name by name; otherwise the node at the end of the first such chain in line order, file or folder |
| LinkLookup.CalSize | drivers/123_link/types.go:43-53 | every folder below gets the 64-bit total of its files, and no other size changes |
| LinkLookup.TotalOfForest | drivers/123_link/types.go:47-50 | the total of a range of lines counts each file line once |
| LinkLookup.Init | drivers/123_link/driver.go:28-36 | the built root shows the text, all sizes are right, and its own is that of all file lines |
| Base64Hex.B64ToHex | drivers/189/help.go:53-85 | the state machine emits the half-bytes of the letters read, plus the left-over of a lone last letter |
| Base64Hex.StepChars | drivers/189/help.go:60-80 | one letter adds exactly the half-bytes it completes |
| Base64Hex.SextetHalves | drivers/189/help.go:53-85 | the letters of any byte string complete exactly its half-bytes, with no left-over, for all tail lengths |
| Base64Hex.HexOfBase64 | drivers/189/help.go:53-85 | applied to padded base 64 (section 4 of RFC 4648) the result is lower-case hexadecimal (section 8) |
| Base64Hex.EncodeHex | drivers/189/help.go:38-42 | what the driver sends for any encrypted bytes is their lower-case hexadecimal form |
| Base64Hex.DigitsOfByte | drivers/189/help.go:53-85 | two digits of 0-9a-f stand for each byte, the higher half first |
| JsonMerge.MergedAt | cmd/lang.go:80-96 | path by path: what the target has stays, what it lacks comes from the source unless a target leaf is in the way, nothing else appears |
| JsonMerge.Idempotent | cmd/lang.go:80-96 | merging again changes nothing |
| JsonMerge.MergeEntry | cmd/lang.go:82-93 | one key's turn, on objects that may come to share subtrees with the source |
| JsonMerge.MergeJson | cmd/lang.go:80-96 | for every key order the target becomes the merge, the source stays, and the result is true iff the target is unchanged |
| PartPlans.EarlierEndsFirst | drivers/115/util.go:448-460 | parts of a tiling never overlap |
| PartPlans.ByteInPart | drivers/115/util.go:448-460 | every byte is in exactly one part |
| PartPlans.SplitFileByPartNum | drivers/115/util.go:439-463 | errors exactly; otherwise that many numbered parts tile the file |
| PartPlans.SplitFileByPartSize | drivers/115/util.go:467-494 | errors exactly; otherwise the parts tile the file at that size |
| PartPlans.SplitFile | drivers/115/util.go:414-435 | fails iff under 1000 bytes, reads a missing chunk iff exactly 9 GiB; otherwise a thousand tiling parts for every begun gigabyte up to ten thousand, or parts of 100 KiB where those would be smaller |
| PartPlans.CalPartSizeExactly | drivers/115_open/upload.go:19-37 | at most 10000 parts iff the file is at most 10000 of the largest parts |
| PartPlans.CalPartSizeIsLeast | drivers/115_open/upload.go:19-37 | between two of its marks from 128 GiB to 1 TiB the size is the least with which 10000 parts cover every file up to the upper mark; 20 MiB below |
| PartPlans.MultpartUpload | drivers/115_open/upload.go:88-135 | the parts sent tile the file and are as many as planned |
| PartPlans.AliDocLeast | drivers/alidoc/upload.go:114-127 | the smallest size that keeps both the minimum and the limit of 10000 parts |
| PartPlans.PartSize189Limits | drivers/189pc/help.go:214-223 | whole 10 MiB multiples; at most 999 parts up to 20 MiB each, at most 1999 above |
| PartPlans.PartSize189Least | drivers/189pc/help.go:214-223 | no smaller multiple of 10 MiB keeps those limits |
| PartPlans.GetSliceSize | drivers/baidu_netdisk/util.go:329-388 | in low-bandwidth mode the least step that fits 2048 slices, the account's maximum when none does; the clamped custom size otherwise |
| FolderDeletion.BelowIsDeeper | drivers/azure_blob/util.go:165-170 | a directory inside another has more slashes |
| FolderDeletion.PlanIsSafe | drivers/azure_blob/util.go:142-187 | requests for files first, then one for each directory blob, always after the requests for everything below it |
| FolderDeletion.DirectoryAfterContent | drivers/azure_blob/util.go:354-380 | every listed blob that is marked or ends in a slash is submitted without the slash, after everything below it |
| FolderDeletion.FileAmongFiles | drivers/azure_blob/util.go:142-161 | every other blob is submitted under its name, with only such blobs before it |
| FolderDeletion.SubmittedCount | drivers/azure_blob/util.go:148-156 | how many requests name a blob: one for each listed blob of that name with a slash added, and one for its own unless it ends in a slash |
| FolderDeletion.ListingExactly | drivers/azure_blob/util.go:132-187 | every listed blob is submitted exactly once, or at all, iff no listed name ends in a slash |
| FolderDeletion.NestedMarkers | drivers/azure_blob/util.go:240-257 | with the markers mkDir makes for a directory and one inside it, neither is submitted |
| FolderDeletion.FileTwice | drivers/azure_blob/util.go:148-156 | a file beside the marker of its name is submitted at least twice |
| FolderDeletion.Container.BatchDeleteBlobs | drivers/azure_blob/util.go:86-129 | batches of at most 128 up to the first request that fails; success iff none does, and then all paths in order are submitted and gone; on failure a prefix is submitted and nothing else is deleted |
| FolderDeletion.IssuedFlat | drivers/azure_blob/util.go:86-129 | the paths submitted by issuing the batches of a plan up to its first failure: a prefix of the plan, all of it on success |
| FolderDeletion.FolderBatchesFlat | drivers/azure_blob/util.go:132-187 | the batches of a whole deletion, taken apart, are its plan: every file, then the directories from the deepest up |
| FolderDeletion.GroupByDepth | drivers/azure_blob/util.go:165-170 | the depth map holds every directory under its depth, in listing order |
| FolderDeletion.SortedDown | drivers/azure_blob/util.go:172-177 | every depth once, the deepest first |
| FolderDeletion.DeleteDirs | drivers/azure_blob/util.go:164-186 | submits the directories from the deepest depth up, depth by depth in batches, up to the first request that fails; success iff none does |
| FolderDeletion.DeleteFolder | drivers/azure_blob/util.go:132-191 | success iff no batch fails and the deletion of the directory itself does not, under its second name when the first is not found; it has then submitted the whole plan in order, and what it leaves in the container; failure has submitted a prefix and deleted nothing else |
| FolderDeletion.LeftExactly | drivers/azure_blob/util.go:132-191 | what success leaves of a fully listed directory: the nested markers ending in a slash that have no blob with a further slash; elsewhere only a blob with the directory's own name goes |
| FolderDeletion.FolderGoneExactly | drivers/azure_blob/util.go:132-191 | success empties the directory iff it holds no nested marker that ends in a slash |
| FolderDeletion.NestedMarkerStays | drivers/azure_blob/util.go:132-257 | a run that deletes a directory holding another made by mkDir: it succeeds, and the inner one is still there |

## Left out

- HTTP, login, signing and response decoding of all services; each answer is a parameter or an arbitrary choice.
- Hash functions, RSA and AES: any function of a byte sequence stands for them.
- The JSON library behind share references: only its round trip on valid UTF-8 text is assumed, as a parameter.
- The error group and the context: a round succeeds only when every task succeeded and the context is live; a cancelled call is one of the failures.
- The cache library: get-and-delete is one step. Its key has no destination path, so a call with another destination that picks up the same entry is not described; which bytes a call with another slice size reads is (`Slicing.ResumedBytes`), what the service does with them is not.
- BlockUpload.Upload.Put: the service names only blocks the file has, and the slice size is the same over a session.
- Alias.Link, listRoot, List, the archive pass-through, MakeDir, Rename and Remove: delegation to the file system.
- RequestTokens.ApiInfo.Require: describes the moment at which the channel has room; waiting itself, and the retry loop around it, are states of the machine, because they interleave. SetQPS, which swaps the channel, and endpoints with qps 0 are not part of it, nor is the order in which waiting requests are served.
- AliasDriver.Select: copies the compacted prefix, and the paired destinations are written back to the list before the calls are issued, where the program slices the same array throughout; nothing reads the list in between.
- AliasDriver.Move: requires that the target's list holds no object twice, which `AliasSelection.ListingDistinct` and `AliasRoots.RootListDistinct` prove of every list the driver builds, and that the two lists are not the same array.
- AliasDriver.Copy: selects the sources before it groups the destinations; the program does it after, with the same errors in the same order.
- AliasSelection.GetAllObjs: one answer of the file system per path and operation, and only whether it is an error.
- AliasPut.GetPutObjs: the free space each storage reports within the second is a parameter, one answer per path.
- WeightedDraw.SelectRandom: fairness is over the draws below the total; the bias of reducing a 64-bit number modulo the total is not counted.
- AliasRoots.ReachableExactly: says which directory a path asks for; the cache of listings in front of the driver is not modelled.
- LinkRender.RenderRoundTrip: the inner format of a file line is a parameter with its own round trip, and the time of parsing that a line without a time gets is part of that parameter's answer.
- LinkLookup.GetByPath: starts from the split path; splitting it and converting nodes to objects is not modelled.
- JsonMerge.MergeJson: source and target are trees of their own at the start, and arrays are leaves.
- PartPlans.AliDocLeast: the float division is read exactly, as is that of PartPlans.PartSize189Limits.
- PartPlans.MultpartUpload: stands for the part loops of the Aliyun open and AliDoc drivers as well, which compute the same offsets.
- FolderDeletion.DirectoryAfterContent: whether a blob's metadata or content type mark it as a directory is a parameter.
- FolderDeletion.Container.BatchDeleteBlobs: which requests fail is a parameter, by their number; an error while a batch is put together counts as a failing request.
- FolderDeletion.DeleteFolder: the listing is a parameter, and an error while listing, before any request, is not; a request names one blob and deletes that blob only.
- Pagination, progress percentages, logging, thumbnails and time formats.
- The driver that a limiter registry entry may be borrowed from through InitReference.
