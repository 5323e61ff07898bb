# Verification of the Crumb API and plate worker

A Dafny model of the parts of Crumb, a self-hosted camera recorder, whose behaviour spans
many calls: the camera compatibility matcher, copy-on-write recording policies, recording
locations, the clip feed and its rendition cache, the licence-plate worker, the
`camera_offline` watchdog and the nightly database backup. `dafny verify dfyconfig.toml`
checks all of it.

## What is modelled

Code that works step by step is a method or a class with the same loops and fields, proved
against a specification; the theorems are about the specification. Databases, disks and
clocks appear as parameters: what a read returned, whether a write succeeded, what a file
system holds.

- **Matching cameras** (`Wildcard`, `CameraMatch`, `ContributeUrl`). A greedy wildcard matcher
  that remembers one star, normalisation, the search of the database, and the link that
  reports a camera. Percent-encoding follows RFC 3986, sections 2.1 and 2.3.
- **Recording policies** (`PolicyNames`, `PolicyFields`, `CameraPolicies`, `PolicyDb`). A camera
  edit under the lock leaves everything as it is, joins a policy with equal fields, edits the
  camera's own deviation, or mints a new one, and reaps the policy it left.
- **Recording locations** (`Whitespace`, `StoragePaths`, `StorageFolders`, `StorageTrust`,
  `StorageChecks`, `Storages`, `StorageRuns`, `StorageEdits`, `StorageDb`, `HiddenOverlap`).
  Path text is parsed into components and compared by canonical form on a file system with
  symbolic links; the handlers and the recorder act on the tables in any order.
- **Clips** (`MotionRuns`, `ClipFeed`, `ClipSources`, `ClipPages`, `ClipNames`, `ClipCache`,
  `ClipPrune`, `Singleflight`, `RenditionProgress`). Merging motion segments, the merged feed,
  what its clips stand for and how its pages grow, the cache keyed by a printed name, its
  pruning, and the lock and permit protocol of renditions and thumbnails as a state machine
  over atomic steps.
- **Plates** (`PassVotes`, `PlateWorker`, `Polygons`, `Triangles`). Voting over the frames of a
  pass, presence tracking, end of pass, and the zone test.
- **Watchdog** (`Watchdog`). Latches, two graces, failing reads and writes, tick by tick.
- **Backups** (`Utf8`, `Backups`, `BackupRuns`, `BackupTiers`, `BackupPeriods`). Names of dumps
  as bytes, rotation, and three tiers over any sequence of runs, with failed dumps, links and
  deletions and with names that make the recogniser panic; what they hold day by day, week by
  week and month by month. UTF-8 follows RFC 3629, sections 3 and 4.
- `Basics`, `Options`, `Splitting`, `Decimal`, `Lexicographic`, `SetSizes` and `StableSort` are
  shared helpers.

## Where code and documentation part

The model follows the code. These are theorems, not remarks.

- Motion segments merge over gaps of up to 30.001 s, because the gap is truncated to
  milliseconds before it is compared with the documented 30 s (`MotionRuns.BoundsInMicroseconds`).
- A rendition is said to be transcoded exactly once at a time; emptying the lock registry
  breaks that once more than 8192 renditions and thumbnails together are asked for
  (`Singleflight.SingleFlightExactly`).
- A symlink is said not to hide an overlap of two locations. It can, for exactly the accepted
  paths that have a `..` after a name or, being absolute as stored, white space at their end,
  and that are not compared as `/` (`HiddenOverlap.HidesOverlapExactly`). The checked folder
  is the used one exactly for trimmed paths without `..` after a name
  (`StorageTrust.CheckedAsUsedExactly`).
- A location's path must be a folder if it exists; a file is accepted exactly when it is
  written with `/` or `/.` behind it (`StorageFolders.FileIsAcceptedExactly`).
- A clip id is said to identify its bytes; ids with a signed instant share a file with the
  opposite instant (`ClipCache.AlwaysFreshExactly`). The feed prints no such id for an event
  since 1970.
- A feed page is said to be the newest clips of the window; it is so exactly when no row
  labelled motion displaced a detection (`ClipFeed.PageIsExactly`). A larger page is said to
  extend a smaller one. With the rows in one order that holds under the same condition
  (`ClipPages.PagesGrowExactly`); but the query leaves rows of one instant in any order, and
  then it takes besides that no tie disturbs the page: that no detection of the page has the
  instant of another detection or of any row beyond the page
  (`ClipPages.PagesGrowAcrossQueriesExactly`).
- A file that is not a dump of ours is said to be passed over; one whose key has fifteen bytes
  and a character across byte 8 makes the recogniser panic (`Backups.ParsePanicsExactly`),
  which ends the job (`BackupRuns.JobSurvivesExactly`).

## Model

| member | source | states |
|---|---|---|
| `Wildcard.GlobMatches` | services/api/src/camera_compat.rs:145-171 | the greedy matcher that returns only to the last star terminates; `true` always means that the pattern matches in the recursive sense of `*`, and for a text without `*` so does `false` that it does not |
| `Wildcard.ForgetEarlierStar` | services/api/src/camera_compat.rs:155-158 | why one remembered star is enough: at a further star, some suffix of the text matches the rest after the earlier star if and only if one matches after the new one |
| `Wildcard.NoMatchAtMark` | services/api/src/camera_compat.rs:159-163 | why moving the mark by one after a mismatch loses no match |
| `Wildcard.MatchesLiteral` | services/api/src/camera_compat.rs:143-144 | what a pattern means: without a star it matches itself alone |
| `Wildcard.MatchesUpToStar` | services/api/src/camera_compat.rs:143-144 | and up to its first star it must stand in front of the text, the star taking up anything that leaves a text the rest matches |
| `CameraMatch.NormalizeIsIdempotent` | services/api/src/camera_compat.rs:128-141 | normalising a name or a glob twice is normalising it once, and a normalised name holds no `*`, which is what makes the matcher exact |
| `CameraMatch.NormalizeAlike` | services/api/src/camera_compat.rs:126-133 | two names normalise alike if and only if their letters and digits agree but for case |
| `CameraMatch.GlobNormalizeSplits` | services/api/src/camera_compat.rs:135-141 | a glob keeps its stars, and what stands between them is normalised like a name |
| `CameraMatch.NormalizingKeepsMatches` | services/api/src/camera_compat.rs:128-141 | a raw string that a raw glob matches still matches after both are normalised |
| `CameraMatch.RawGlobMatchIsAHit` | services/api/src/camera_compat.rs:177-186 | a model that a listed raw glob matches is a model hit, unless nothing of it survives normalising |
| `CameraMatch.ComputeMakeHit` | services/api/src/camera_compat.rs:174-176 | the loop over maker and aliases finds a hit if and only if one of them normalises to the reported maker |
| `CameraMatch.ComputeModelHit` | services/api/src/camera_compat.rs:177-186 | the loop finds a hit if and only if a model is equal after normalising or a glob matches in the recursive sense |
| `CameraMatch.MatchCamera` | services/api/src/camera_compat.rs:190-222 | the answer is the first entry with maker and model hit, else "possible" if any maker hit, else none; an entry is returned exactly when the level is Identified |
| `CameraMatch.AnswerIsUnique` | services/api/src/camera_compat.rs:190-222 | that description leaves one answer, a function of the database and the two normalised names |
| `CameraMatch.AnswerExactly` | services/api/src/camera_compat.rs:174-222 | in terms of what the camera reports: identified as the first entry one of whose makers and one of whose models agree with it in letters and digits, or a glob of which matches; unknown if and only if no maker does or the reported one has no letter or digit |
| `CameraMatch.RawMatchIdentifies` | services/api/src/camera_compat.rs:190-222 | a camera whose maker an entry names or lists as an alias, and whose model some raw glob of that entry matches, is identified, however it is spelled |
| `ContributeUrl.ComputeEncode` | services/api/src/camera_compat.rs:229-243 | the encoder loop computes the percent-encoding of every byte outside the unreserved set |
| `ContributeUrl.ComputeDecode` | services/api/src/db_backup.rs:393-412 | the index loop computes the percent-decoding that leaves malformed escapes alone |
| `ContributeUrl.EncodesExactly` | services/api/src/camera_compat.rs:232-242 | letters, digits and `-._~` stay, every other byte is sent as `%` and its two hexadecimal digits in capitals |
| `ContributeUrl.EscapeDecodes` | services/api/src/db_backup.rs:396-407 | `%` and two hexadecimal digits of either case decode to their byte |
| `ContributeUrl.OtherDecodes` | services/api/src/db_backup.rs:396-411 | any other character stays, a `%` without two such digits included |
| `ContributeUrl.DecodeEncode` | services/api/src/camera_compat.rs:229-243 | decoding undoes encoding, for every byte string |
| `ContributeUrl.EncodedAlphabet` | services/api/src/camera_compat.rs:229-243 | the encoded text holds only unreserved characters and `%`, so no separator of a query |
| `ContributeUrl.DecodeKeepsMalformed` | services/api/src/db_backup.rs:393-412 | decoding never lengthens a text and leaves it as it is if and only if no well-formed escape stands in it |
| `ContributeUrl.ContributeLink` | services/api/src/camera_compat.rs:228-272 | cutting the link at `?`, `&` and `=` and decoding the values gives the template and exactly the non-empty make, model, firmware and title |
| `ContributeUrl.LinkFieldsExactly` | services/api/src/camera_compat.rs:246-270 | those fields are: each known, non-empty part of the identity under its own key, and a title with the known ones of make and model, each once and nothing else |
| `PolicyNames.MintDeviationName` | services/api/src/config_routes.rs:1804-1821 | the name search ends after at most one try more than there are taken names, with the first untaken candidate |
| `PolicyNames.CandidatesAreDistinct` | services/api/src/config_routes.rs:1816-1819 | two different suffix numbers never give the same candidate |
| `PolicyNames.TriesAreBounded` | services/api/src/config_routes.rs:1811-1819 | while every candidate so far is taken there are no more of them than taken names |
| `PolicyNames.MintedIsUnique` | services/api/src/config_routes.rs:1804-1821 | the rule determines the name |
| `PolicyNames.MintedReads` | services/api/src/config_routes.rs:1804-1821 | the name is the trimmed camera name, or `Camera` for a blank one, if that is free; otherwise with the least number from 2 on that is |
| `PolicyFields.ResolveIsIdempotent` | services/api/src/config_routes.rs:3523-3655 | patching a request over a policy that already has it changes nothing |
| `PolicyFields.ResolvesExactly` | services/api/src/config_routes.rs:3523-3655 | a well-formed request is rejected over a policy if and only if a cap on the archive stands without an archive, which is looked at first, or a spill target stands that reaches a positive cap, told by the values sent or kept |
| `PolicyFields.PatchedFollows` | services/api/src/config_routes.rs:3528-3655 | otherwise each of the twenty fields is the value sent, or the old one if none was; names are parsed and a threshold becomes the nearest one allowed |
| `PolicyFields.FollowsIsUnique` | services/api/src/config_routes.rs:3528-3655 | which determines the new fields |
| `PolicyFields.WellFormedExactly` | services/api/src/config_routes.rs:5256-5351 | a request is turned down by itself if and only if no policy with every field in range could be what it asks for, whatever it is sent over |
| `CameraPolicies.EditTakesEffect` | services/api/src/config_routes.rs:1711-1799 | after an accepted locked edit the camera is under the policy that is returned, with the wanted fields, and the tables are sound; a refused edit changes nothing |
| `CameraPolicies.EditSetsWhatWasSent` | services/api/src/config_routes.rs:1633-1799 | after an accepted edit each of the twenty settings the camera records with is the value sent, or what it was before if none was sent; settings in range stay in range |
| `CameraPolicies.EditIsRefusedExactly` | services/api/src/config_routes.rs:1633-1710 | an edit is refused if and only if a value is out of range, the camera is missing or grouped, or one of the two cross-checks fails on the sent-or-kept values, in this order |
| `CameraPolicies.EditPicksBySource` | services/common/src/db.rs:4467-4532 | a policy is written if and only if none has the wanted settings; otherwise the camera ends under the Default if it has them, else the first operator policy by name, else the first deviation |
| `CameraPolicies.EditKeepsTheRest` | services/api/src/config_routes.rs:1711-1799 | no camera changes its name or group, no policy its name or kind, and what is created is a deviation |
| `CameraPolicies.MintedIsOwn` | services/api/src/config_routes.rs:1760-1799 | after a policy was minted for it, the next edit of the camera to settings nobody has is made in place on that policy |
| `CameraPolicies.EditLeavesOthersAlone` | services/api/src/config_routes.rs:1711-1799 | another camera's effective fields stay as they are unless, before the edit, the request is accepted and nothing matches it, the edited camera alone is pinned to its deviation, and the other one has no pin and takes that deviation from its group |
| `CameraPolicies.UnpinnedCameraIsReached` | services/api/src/config_routes.rs:1760-1775 | such a state is Valid in the sense of the model, for every request that changes something; the schema gives every camera a pin, so it is found only where a column of an older version is still empty |
| `CameraPolicies.EditLeavesPinnedCamerasAlone` | services/api/src/config_routes.rs:1711-1799 | so no camera with a pin of its own is affected by an edit of another |
| `CameraPolicies.EditKeepsTemplates` | services/api/src/config_routes.rs:1689-1799 | whichever of the four branches is taken, the Default and the operator policies keep their rows |
| `CameraPolicies.EditMakesNoOrphan` | services/api/src/config_routes.rs:1711-1799 | no edit leaves behind a deviation that nothing refers to |
| `CameraPolicies.EditMakesNoTwins` | services/api/src/config_routes.rs:1711-1799 | no edit creates a second policy with fields another already has |
| `CameraPolicies.EditIsIdempotent` | services/api/src/config_routes.rs:1711-1799 | the same request sent again takes the unchanged branch and leaves the tables as they are |
| `CameraPolicies.BestMatchIsUnique` | services/common/src/db.rs:4476-4532 | at most one policy is the one a field set rejoins: Default before operator before deviation, then by name |
| `CameraPolicies.RunInvariant` | services/api/src/config_routes.rs:1711-1799 | over every run of locked edits: exactly one Default, unique names, every reference resolves, no new orphan, no twins if there were none |
| `CameraPolicies.RunLeavesAlone` | services/api/src/config_routes.rs:1711-1799 | over every run, a pinned camera that is not edited keeps its settings and a template its row |
| `PolicyDb.Database.UpdateCameraPolicy` | services/api/src/config_routes.rs:1633-1799 | the row-by-row request takes exactly one step of the specification: refusal, unchanged, joined, edited in place or minted, and then the reaping; if it is accepted the camera records with the values sent and, where none was sent, as before |
| `PolicyDb.Database.WriteEdit` | services/api/src/config_routes.rs:1724-1799 | the branch chosen by match, ownership and reference count, and the tables after its writes |
| `PolicyDb.Database.FindMatchingPolicy` | services/common/src/db.rs:4476-4532 | the preferred policy with equal fields, or none if there is none |
| `PolicyDb.Database.ReapPolicyIfOrphanDeviation` | services/common/src/db.rs:4384-4401 | removes the policy only if it is a deviation no camera and no group refers to |
| `PolicyDb.Database.CountCamerasForPolicy` | services/common/src/db.rs:4555-4566 | the counting loop over the cameras returns the number of those pinned to the policy |
| `PolicyDb.SoleOwner` | services/api/src/config_routes.rs:1760-1775 | the count is one exactly when the pinned camera is the only one |
| `StoragePaths.LexicalStoragePath` | services/api/src/config_routes.rs:5380-5392 | the push-and-pop loop computes the lexical form of the trimmed path |
| `StorageChecks.PartsExactly` | services/api/src/config_routes.rs:5380-5392 | the parts of a path hold no separator, and joined by separators they are the path |
| `StorageChecks.ComponentsExactly` | services/api/src/config_routes.rs:5382-5391 | and how they are read: a repeated or final `/` and a `.` count for nothing, `..` is a step up, any other part a name |
| `StoragePaths.CanonicalStoragePath` | services/api/src/config_routes.rs:5404-5427 | cutting names off until the rest resolves and putting them back gives one forward pass that replaces every link by its target, from the root or, for a relative path whose first name is there, from the working directory; any other relative path stays as it is |
| `StoragePaths.ResolveFollows` | services/api/src/config_routes.rs:5404-5427 | a part of the path that resolves may be replaced by the place it resolves to |
| `StoragePaths.FollowPastTheEnd` | services/api/src/config_routes.rs:5408-5425 | where resolution stops, the remaining names are kept as they are |
| `StorageFolders.PlainIsCheckedAsUsed` | services/api/src/config_routes.rs:5484-5551 | for an accepted path without surrounding white space and without `..` after a name, the folder that is compared is the folder that is written to |
| `StorageChecks.TextIsRefusedExactly` | services/api/src/config_routes.rs:5484-5512 | a path is refused before anything is looked up if and only if it is blank, relative once trimmed, or not below the media root |
| `StorageChecks.PlainIsAcceptedExactly` | services/api/src/config_routes.rs:5514-5551 | a plain path below the root is accepted if and only if, links followed, it leads to a folder, or to nothing yet in a folder, or to a file written as a folder; refused as a file otherwise |
| `StorageFolders.FileIsAcceptedExactly` | services/api/src/config_routes.rs:5514-5527 | a path that leads to a file is accepted if and only if its trimmed text ends in `/` or in a part `.` |
| `StorageTrust.CheckedAsUsedExactly` | services/api/src/config_routes.rs:5380-5427 | and only for those: on every file system that accepts the path the two folders agree, if and only if the path is of that form |
| `StorageTrust.LinkDiverts` | services/api/src/config_routes.rs:5383-5390 | for every path with a `..` after a name there is a link that makes the two folders differ |
| `StorageTrust.UntrimmedDiffers` | services/api/src/config_routes.rs:2209-2229 | for every path with white space around it the stored text names another folder than the checked one |
| `HiddenOverlap.HidesOverlapExactly` | services/api/src/config_routes.rs:5429-5437 | for a path under the media root there are a file system and a plain neighbour, accepted beside it although both are one folder on disk, if and only if the stored path is absolute, has white space at its end or a `..` after a name, and its lexical form is not `/` |
| `Storages.ApartIffNothingShared` | services/api/src/config_routes.rs:5449-5457 | two folders are apart if and only if no file lies under both |
| `Storages.CheckStoragePathOverlap` | services/api/src/config_routes.rs:5438-5468 | the loop reports the first location that is the same folder as, contains or lies inside the candidate's |
| `Storages.OverlapsExactly` | services/api/src/config_routes.rs:5438-5468 | a candidate passes if and only if its canonical folder is apart from that of every location but the one being edited |
| `StorageEdits.RelationMeans` | services/api/src/config_routes.rs:5449-5466 | the relation that is reported: the folders hold the same files, all files of one are in the other, or the other way round; none if they share no file |
| `StorageEdits.FirstOverlapIsNamed` | services/api/src/config_routes.rs:5438-5468 | the location that is named is the first that shares a file with the candidate |
| `Storages.CreateKeepsValid` | services/api/src/config_routes.rs:2203-2240 | creating keeps ids, names and folders of the locations apart and every reference whole |
| `Storages.UpdateKeepsValid` | services/api/src/config_routes.rs:2266-2351 | so does changing a location |
| `Storages.DeleteKeepsValid` | services/api/src/config_routes.rs:2357-2449 | so does deleting one: nothing that a recording or a policy names is deleted |
| `StorageEdits.CreatesExactly` | services/api/src/config_routes.rs:2203-2240 | a location is created if and only if its path passes, no other shares a file with it and none has its name; then its row is added and nothing else changes |
| `StorageEdits.UpdatesExactly` | services/api/src/config_routes.rs:2266-2351 | a listed location is changed if and only if a path that really moves it finds no recording there, passes and shares no file with another, and its name is free; then name and path are those sent, or the old ones, and every other row stays |
| `StorageEdits.DeletesExactly` | services/api/src/config_routes.rs:2357-2449 | a listed location is deleted if and only if it holds no recording and no policy writes live or archive to it; then its row alone is gone |
| `StorageRuns.RunKeepsValid` | services/api/src/config_routes.rs:2203-2449 | over every run of creations, changes, deletions, recordings and policy assignments, while folders and files come and go and links stay |
| `StorageRuns.FileHasOneHome` | services/api/src/config_routes.rs:5429-5468 | after every run a file lies under the canonical folder of at most one location |
| `StorageRuns.SegmentKeepsItsPath` | services/common/src/db.rs:512-517 | a recording that is not deleted resolves to the same absolute path through every run |
| `StorageChecks.JoinExactly` | services/common/src/db.rs:512-517 | that path lies below the folder of the location, unless the stored relative path is absolute |
| `Storages.HoldingStorageStays` | services/api/src/config_routes.rs:2276-2302 | a location that holds recordings keeps its path through every step |
| `StorageRuns.PlainLocationsShareNothing` | services/api/src/config_routes.rs:5429-5468 | locations with plain paths share no file on disk |
| `StorageDb.Database.CreateStorage` | services/api/src/config_routes.rs:2203-2240 | the handler's result and tables, refusals in the order of the code, and the kept invariant |
| `StorageDb.Database.UpdateStorage` | services/api/src/config_routes.rs:2266-2351 | the handler's result and tables: a path that differs only lexically is no change, a real change is refused while recordings exist |
| `StorageDb.Database.DeleteStorage` | services/api/src/config_routes.rs:2357-2449 | the handler's result and tables: refused while recordings or policies refer to the location |
| `MotionRuns.MotionRuns` | services/api/src/clips.rs:371-391 | one run for every chain of motion segments that lasts long enough, in order, where a chain links each segment to an earlier one and chains are nowhere near each other |
| `MotionRuns.ChainsAreUnique` | services/api/src/clips.rs:371-391 | the segments can be cut into such chains in only one way |
| `MotionRuns.ResultIsUnique` | services/api/src/clips.rs:371-391 | so the answer is determined by the segments |
| `MotionRuns.RunBounds` | services/api/src/clips.rs:376-386 | a run has the least start and the greatest end of its segments |
| `MotionRuns.FirstBboxIsEarliest` | services/api/src/clips.rs:380-382 | its region is the earliest one captured |
| `MotionRuns.EventsAreApart` | services/api/src/clips.rs:371-391 | events are in order, longer than the minimum and further apart than the gap |
| `MotionRuns.MergingIsIdempotent` | services/api/src/clips.rs:371-391 | merging the events again gives the same events |
| `MotionRuns.BoundsInMicroseconds` | services/api/src/clips.rs:132-135 | with truncated milliseconds the gap is below 30.001 s, not at most 30 s, and the minimum is 1 s |
| `ClipFeed.GetClips` | services/api/src/clips.rs:142-318 | a window that is not in order is refused; otherwise it is cut to its last 31 days, the type filter chooses detections and motion, the page is the first `limit` clips of the sorted gathered clips with the clamped limit, and `total` is the number of rows and motion events |
| `ClipFeed.KindsExactly` | services/api/src/clips.rs:173-175 | without a type, or for `all`, both kinds are gathered, for one of the two that one, for any other word none |
| `ClipFeed.WindowIsCut` | services/api/src/clips.rs:166-172 | a window of up to 31 days is kept, a longer one cut to its last 31 |
| `ClipFeed.LimitIsNearest` | services/api/src/clips.rs:176 | 500 clips unless a number is sent; then that number, or the nearest from 1 to 2000 |
| `ClipSources.ClipsStand` | services/api/src/clips.rs:198-318 | a page is newest first, and every clip on it tells what a returned row not labelled motion says, an event without an end being ongoing, or covers a chain of motion segments of a camera from first start to last end, a second at least |
| `ClipSources.RowHasClip` | services/api/src/clips.rs:211-252 | every row not labelled motion has such a clip in the feed |
| `ClipSources.ChainHasClip` | services/api/src/clips.rs:255-298 | and so has every chain of motion segments that lasts a second |
| `ClipFeed.WindowIsNewestFirst` | services/common/src/db.rs:9430-9440 | the rows of a window come newest first if those of the table do, so the theorems below apply to every answer |
| `ClipFeed.PageIsUnique` | services/api/src/clips.rs:142-318 | the rows, the footage and the limit determine the page |
| `ClipFeed.PageIsExactly` | services/api/src/clips.rs:198-318 | whatever motion there was, the page is the front of the whole sorted window if and only if no fetched row labelled motion displaced a detection that was left out |
| `ClipFeed.PageDetectionsExactly` | services/api/src/clips.rs:205-252 | the detections of a page are the newest ones under exactly that condition |
| `ClipFeed.PageFromDetections` | services/api/src/clips.rs:300-318 | the first `limit` detections and all motion events are enough to know the first `limit` clips |
| `ClipPages.GrowthIsOfDetections` | services/api/src/clips.rs:300-318 | whatever motion there was, one page extends another if and only if its detections are the first of the other's |
| `ClipPages.PagesGrowExactly` | services/api/src/clips.rs:255-318 | with the rows in one order, whatever motion there was, every larger page extends this one if and only if no row labelled motion displaced a detection |
| `ClipPages.PagesGrow` | services/api/src/clips.rs:300-318 | without rows labelled motion a larger limit over the same rows only appends, and `total` exceeds the page exactly when more clips exist |
| `ClipPages.PagesGrowAcrossQueriesExactly` | services/common/src/db.rs:9430-9440 | whatever motion there was and however each query orders the rows of one instant, every larger page extends this one if and only if no row labelled motion displaced a detection and no tie disturbs the page |
| `ClipPages.OnlyTiesMatter` | services/common/src/db.rs:9430-9440 | without rows labelled motion the condition is that no row of the page has the instant of a later one, in the page or beyond it |
| `ClipPages.OrderIsDetermined` | services/common/src/db.rs:9430-9440 | rows of different instants come back in one order only |
| `ClipPages.PagesGrowAcrossQueries` | services/common/src/db.rs:9430-9440 | in particular a page of a later query extends the earlier one where no row is labelled motion and no two rows have one instant |
| `ClipPages.TiesMaySwap` | services/common/src/db.rs:9430-9440 | for every tie that disturbs a page there is an order of the same rows, and motion, with which the page of the next query does not extend it |
| `ClipFeed.TotalIsNeverLow` | services/api/src/clips.rs:300-318 | `total` counts the skipped rows too: it is right if and only if there are none, and never too low |
| `ClipNames.WindowIsExact` | services/api/src/clips.rs:448-464 | a clip window starts the pre-roll before the onset, and an instant after that is in it if and only if it is within the overview length, within 30 s, and within 8 s of the end of an event that has ended |
| `ClipNames.WindowLength` | services/api/src/clips.rs:448-464 | for an overview of up to 30 s the window has that length if and only if the event is going on or, with 8 s behind it, reaches that far; else it ends 8 s after the event, or where it starts |
| `ClipNames.WindowIsBounded` | services/api/src/clips.rs:448-464 | so a clip window is never inverted nor longer than the ceiling, and holds the onset of the event |
| `ClipNames.ParsePrintedId` | services/api/src/clips.rs:562-590 | every motion id the feed prints names the camera and instants it was printed for |
| `ClipNames.DigitsAreRead` | services/api/src/clips.rs:562-567 | an instant is read from digits with or without a sign if and only if it fits into 64 bits |
| `ClipNames.FilenameDetermines` | services/api/src/clips.rs:597-602 | a cache file name determines the sanitised id, the quality, the overview length and the pre-roll |
| `ClipNames.SharedNameAgrees` | services/api/src/clips.rs:597-602 | two accepted ids with one file name the same camera, and the same instants up to the sign of an instant written with one |
| `ClipNames.FileDeterminesClip` | services/api/src/clips.rs:763-778 | for printed ids the file name determines clip, quality and both settings |
| `ClipNames.EtagsMatchFiles` | services/api/src/clips.rs:746-787 | two validators are equal exactly when the cache files are |
| `ClipNames.FlippedTwin` | services/api/src/clips.rs:597-602 | an id with a signed instant shares its file with the id of the opposite instant |
| `ClipCache.Cache.GetClipMedia` | services/api/src/clips.rs:629-712 | a request renders the file of its name if it is missing, and is answered with that file, or with nothing if the id is malformed or the render fails |
| `ClipCache.AlwaysFreshExactly` | services/api/src/clips.rs:562-602 | through every run of settings changes, requests, failed renders and evictions an id is answered with the window a fresh render would cover, if at all, if and only if it is not confusable: no signed non-zero instant that changes the window |
| `ClipCache.ServedIsFresh` | services/api/src/clips.rs:684-712 | the same for one run, from any cache whose files have an origin |
| `ClipCache.TwinIsServed` | services/api/src/clips.rs:597-602 | a confusable id is answered with another window after its twin |
| `ClipCache.FeedClipsAreServedFresh` | services/api/src/clips.rs:562-590 | every clip of the feed since 1970 is served right, whatever other ids are asked for |
| `ClipCache.SettingsAreNearest` | services/common/src/db.rs:8710-8780 | a setting takes the value sent, or the nearest one allowed |
| `ClipCache.EvictedIsFresh` | services/api/src/clips.rs:684-701 | after its file was evicted every id is answered with a fresh window, if at all |
| `ClipPrune.PruneClipCache` | services/api/src/clips.rs:1031-1061 | oldest renditions are deleted until the rest fits or none can be removed; no file that could stay is deleted, no other file touched |
| `ClipPrune.RenditionsAreThose` | services/api/src/clips.rs:1038-1042 | what is considered are the files named `*.preview.mp4` and `*.full.mp4` |
| `ClipPrune.CachedFilesAreRenditions` | services/api/src/clips.rs:1025-1030 | and every file name the cache gives is one of them |
| `ClipPrune.DeleteWhileOver` | services/api/src/clips.rs:1053-1060 | the loop with its running total deletes exactly the removable files of a prefix, and stops as soon as the rest fits |
| `Singleflight.ReachableIsSafe` | services/api/src/clips.rs:950-1022 | in every interleaving: never more transcodes than permits, never two under one lock, never a half-written file under its final name, and every publication is visible, evicted or overwritten |
| `Singleflight.SingleFlightUntilCleared` | services/api/src/clips.rs:691-701 | until the lock registry is emptied each rendition has one transcode at most, and successful ones number its evictions, plus one if the file is there |
| `Singleflight.SingleFlightExactly` | services/api/src/state.rs:795-804 | every reachable state has at most one transcode per rendition, if and only if no more than 8192 renditions and thumbnails are asked for, or there is at most one permit, or no rendition |
| `Singleflight.SingleFlightFails` | services/api/src/clips.rs:871-880 | with one name more, be it of a rendition or of a thumbnail, and two permits there is a run with two transcodes of one file |
| `Singleflight.StepKeepsPermits` | services/api/src/clips.rs:950-1022 | permits are conserved by every step, other users of the semaphore included |
| `Singleflight.StepKeepsLocks` | services/api/src/state.rs:795-804 | every lock belongs to one rendition and is held once, across emptyings of the registry |
| `Singleflight.StepKeepsFiles` | services/api/src/clips.rs:950-1022 | write to a temporary file, then rename: what is visible is whole |
| `RenditionProgress.RequestRenders` | services/api/src/clips.rs:691-712 | with nothing in its way a request renders its missing file: the file is then there as a whole, counted once, and permit and lock are free again |
| `RenditionProgress.RequestIsServed` | services/api/src/clips.rs:691-712 | for a file that is there it is answered without a permit and without rendering |
| `RenditionProgress.NeverStuck` | services/api/src/clips.rs:691-712 | no deadlock: in every reachable state in which other users leave a permit, some request can take its next step |
| `PassVotes.PassVote.Add` | services/alpr-worker/worker.py:148-160 | the two dictionaries and the best frame after one more read |
| `PassVotes.PassVote.Winner` | services/alpr-worker/worker.py:162-167 | the plate with the greatest sum, the earliest among equals, and its mean confidence |
| `PassVotes.LeaderLeads` | services/alpr-worker/worker.py:162-167 | that plate has the greatest sum of all plates read and exceeds every plate read before it |
| `PassVotes.MeanBetween` | services/alpr-worker/worker.py:162-167 | its mean lies between the least and the greatest confidence of its frames |
| `PassVotes.BestIsGreatest` | services/alpr-worker/worker.py:153-160 | the kept artefacts are those of the first read of the whole pass that no read exceeds |
| `PassVotes.PlatesAreThoseRead` | services/alpr-worker/worker.py:148-160 | the keys of the dictionaries are the plates read, each once |
| `PassVotes.PlatesByFirstRead` | services/alpr-worker/worker.py:148-152 | and they are listed in the order of their first reads |
| `PassVotes.SumOfParts` | services/alpr-worker/worker.py:148-152 | what a part of a pass adds to the votes does not depend on the rest |
| `PlateWorker.Worker.ProcessFrame` | services/alpr-worker/worker.py:454-490 | one turn of the loop takes exactly one step of the specification, whose meaning over the frames the next rows give |
| `PlateWorker.AcceptedExactly` | services/alpr-worker/worker.py:454-466 | a read counts if and only if its frame moved, its confidence is not below the least and its centre is in the allowed region |
| `PlateWorker.PassEndsExactly` | services/alpr-worker/worker.py:477-480 | with a pass going on, a frame ends it if and only if it comes at least the gap after the last frame with motion or at least the maximum after the clock of the first accepted read since the previous end |
| `PlateWorker.RunTracks` | services/alpr-worker/worker.py:448-490 | after any frames the vote holds the accepted reads since the last end of a pass, in order, and the clock of the first of them |
| `PlateWorker.NewAreArrived` | services/alpr-worker/worker.py:470-473 | the plates waiting to be announced are those that arrived in the pass going on |
| `PlateWorker.PostsExactly` | services/alpr-worker/worker.py:477-485 | a frame makes the worker post if and only if it ends a pass whose leading plate arrived in that pass |
| `PlateWorker.ForgetsExactly` | services/alpr-worker/worker.py:487-490 | at the end of a pass the plates still remembered are those sighted within the reappear gap |
| `PlateWorker.PruningIsInvisible` | services/alpr-worker/worker.py:487-490 | the worker that forgets old presences and one that never does agree on arrivals, votes and posts at every frame |
| `PlateWorker.SameAnswer` | services/alpr-worker/worker.py:470-473 | the presence check answers as if nothing had been forgotten |
| `PlateWorker.NewPlatesWereRead` | services/alpr-worker/worker.py:470-473 | plates waiting to be announced have been voted on |
| `PlateWorker.PostsArePaidFor` | services/alpr-worker/worker.py:470-490 | every post of a plate is matched by an arrival of its own, a sighting after an absence longer than the gap |
| `PlateWorker.ParkedCarPostsOnce` | services/alpr-worker/worker.py:466-473 | a plate seen continuously is posted at most once |
| `PlateWorker.PostedIsTheWinner` | services/alpr-worker/worker.py:477-485 | what is posted is the winner among the accepted reads of its pass, with a confidence between its frames' and the artefacts of the best frame |
| `Polygons.PointInPoly` | services/alpr-worker/worker.py:220-233 | the toggling loop computes the parity of the edges crossed |
| `Polygons.CrossesExactly` | services/alpr-worker/worker.py:228-230 | a rising edge is crossed from its lower end on, the upper end excluded, by exactly the points strictly to its left, told by the sign of the cross product; a falling one by those to its right; no other edge |
| `Triangles.TriangleIsItsInterior` | services/alpr-worker/worker.py:220-233 | for every triangle, however its corners are listed, a point off the outline is inside if and only if it is on the inner side of all three edges |
| `Triangles.PolygonIsItsFan` | services/alpr-worker/worker.py:220-233 | for every polygon a point is inside if and only if it is inside an odd number of the triangles that the first corner makes with the other edges |
| `Polygons.CutPolygon` | services/alpr-worker/worker.py:220-233 | cutting along any diagonal: inside the whole means inside exactly one of the pieces |
| `Polygons.RotatedPolygon` | services/alpr-worker/worker.py:220-233 | the answer does not depend on the corner the list starts with |
| `Polygons.ReversedPolygon` | services/alpr-worker/worker.py:220-233 | nor on the direction in which the corners are listed |
| `Polygons.RectangleIsHalfOpen` | services/alpr-worker/worker.py:220-233 | on an upright rectangle the test is membership in the half-open rectangle |
| `Polygons.InZones` | services/alpr-worker/worker.py:236-248 | accepted if and only if inside an include zone, if there is any, and inside no exclude zone |
| `Polygons.AllowedByZone` | services/alpr-worker/worker.py:236-248 | zone by zone: a first include zone allows its inside alone, a further one its inside besides, an exclude zone takes its inside away |
| `Watchdog.Watchdog.RunTick` | services/api/src/alerts.rs:241-341 | one tick: boot tracking, then the events written and the latches left, failed reads and writes included |
| `Watchdog.Watchdog.CheckCamera` | services/api/src/alerts.rs:764-862 | what one camera's check fires and latches, and that it touches no other camera |
| `Watchdog.CheckedTick` | services/api/src/alerts.rs:705-862 | in a tick that reads rule and cameras, a camera is reported if and only if its sign of life, the motion cache for a camera recording on motion unless shadow mode is known to be on and else the last segment, is missing or older than the limit, 120 s by default, it is not latched, both graces are over and the write works; and when it stays latched |
| `Watchdog.UncheckedTick` | services/api/src/alerts.rs:712-731 | a rule or camera list that cannot be read reports nothing and keeps every latch, a rule that is off clears them |
| `Watchdog.LatchMeans` | services/api/src/alerts.rs:705-862 | a camera is latched if and only if it has been reported and nothing has cleared it since |
| `Watchdog.ReportsAreSeparated` | services/api/src/alerts.rs:705-862 | between two reports of one camera lies a tick that saw it online, saw the rule disabled or no longer listed it |
| `Watchdog.OutageIsReported` | services/api/src/alerts.rs:705-862 | in a tick in which everything works and the graces are over, an offline camera is or has been reported |
| `Watchdog.ReportedAfterGraces` | services/api/src/alerts.rs:581-635 | with a stable process id that is the first working tick after both graces |
| `Watchdog.StablePidKeepsBoot` | services/api/src/alerts.rs:269-289 | a stable process id never restarts the boot grace |
| `Watchdog.QuietAfterRestart` | services/api/src/alerts.rs:269-289 | after two heartbeats with different process ids, none between them, no camera is reported for the length of the grace |
| `Watchdog.QuietAfterCreation` | services/api/src/alerts.rs:596-635 | a camera that never reported is not reported while younger than both bounds |
| `Backups.ParseExactly` | services/api/src/db_backup.rs:209-220 | of all file names the recogniser accepts exactly those the job prints, and reads the key back |
| `Backups.KeyTextExactly` | services/api/src/db_backup.rs:209-212 | the key is what stands between `<db>-` and `.sql.gz` |
| `Backups.ParsePanicsExactly` | services/api/src/db_backup.rs:213-217 | it panics if and only if the text between prefix and suffix has fifteen bytes and the ninth continues a character |
| `Backups.SomeNamePanics` | services/api/src/db_backup.rs:213-217 | for every database there is such a name |
| `Backups.LatestIsNotOurs` | services/api/src/db_backup.rs:203-221 | the `-latest` links are never taken for dumps |
| `Backups.RotationDeletions` | services/api/src/db_backup.rs:232-246 | it panics exactly if some name makes the recogniser panic; otherwise only own dumps are deleted, and those that remain are the newest `keep`, at least one |
| `Backups.NewestIsUnique` | services/api/src/db_backup.rs:232-246 | which files those are is determined by the names |
| `Backups.NewestOfGrowing` | services/api/src/db_backup.rs:232-246 | keeping the newest after every addition is keeping the newest of everything added |
| `BackupRuns.BackupJob.RunOnce` | services/api/src/db_backup.rs:500-581 | a failed dump changes nothing; a successful one is linked into every active tier as far as linking works, and each tier is rotated but for the files that cannot be deleted, up to the first that makes the recogniser panic |
| `BackupPeriods.SameFileExactly` | services/api/src/db_backup.rs:498-521 | two runs are given one file of a tier if and only if they have the same stamp, the same ISO week, or the same year and month in their stamps |
| `BackupRuns.JobSurvivesExactly` | services/api/src/db_backup.rs:673-691 | with anyone putting files in, changing them or taking them out between the runs: the job still runs if and only if no name in `daily` at its start, and none in an active tier at any successful dump, makes the recogniser panic |
| `BackupRuns.UndisturbedJobSurvivesExactly` | services/api/src/db_backup.rs:673-691 | left alone, it still runs if and only if no file of `daily` made the recogniser panic at the start, and none of another active tier did or no dump has succeeded |
| `BackupRuns.RotatedIsUnique` | services/api/src/db_backup.rs:540-560 | what rotation leaves of a directory is determined by the directory and the files that cannot be deleted |
| `BackupTiers.TiersHoldTheNewest` | services/api/src/db_backup.rs:500-581 | from any own dumps a tier starts with, after any runs and failures: a tier that keeps `k` holds the newest `k` days, weeks or months, each with the last dump linked for it, also after its daily copy is rotated out, and no others once the last runs could delete; a period whose link was lost does not count, and while the newest ever linked is lost only `k - 1` others are there |
| `BackupPeriods.PeriodsAreHeld` | services/api/src/db_backup.rs:500-581 | counted in periods: the last dump linked in a period, not lost since, is in the tier if fewer than `k` later periods have one, and with nothing in the way of deleting only then |
| `BackupPeriods.WeeksAreHeld` | services/api/src/db_backup.rs:508-515 | in particular `weekly` holds, under the ISO week, the last dump linked in each of the newest `keep_weeks` weeks |
| `BackupPeriods.MonthsAreHeld` | services/api/src/db_backup.rs:516-523 | and `monthly`, under year and month, that of each of the newest `keep_months` months |
| `BackupPeriods.NothingElseIsHeld` | services/api/src/db_backup.rs:500-581 | every dump in a tier is that of such a period or was there at first |
| `BackupTiers.LossKeepsNewest` | services/api/src/db_backup.rs:329-336 | when the newest file is removed for a link that then fails, one fewer of the others are still the newest |
| `BackupTiers.DailyHoldsTheLastDumps` | services/api/src/db_backup.rs:500-581 | `daily` then holds the last `keep_days` dumps, of the runs and before them of those it started with, and no others |
| `BackupRuns.OtherFilesStay` | services/api/src/db_backup.rs:223-231 | files that do not match the naming pattern are never changed or deleted |
| `BackupRuns.DisabledTierIsUntouched` | services/api/src/db_backup.rs:540-543 | a weekly or monthly tier that keeps nothing is never touched |
| `BackupRuns.UnlimitedDailyKeepsAll` | services/api/src/db_backup.rs:540-543 | `daily` with a limit of no days receives every dump and keeps it |
| `StableSort.SortIsStable` | services/api/src/clips.rs:316-318 | the sorts sort, permute, and keep the order of equals |
| `StableSort.StableSortIsUnique` | services/api/src/clips.rs:316-318 | and there is only one sequence that does |
| `StableSort.TakeOfMerge` | services/api/src/clips.rs:300-318 | the first `k` of a merge need no more than the first `k` of one side |
| `Lexicographic.FirstDifferenceDecides` | services/api/src/db_backup.rs:236-240 | keys are compared by their first difference |
| `Utf8.IsUtf8Exactly` | services/api/src/db_backup.rs:550-556 | file names that count are the UTF-8 encodings of Unicode scalar values |

## Left out

- Plain policy assignment (`services/api/src/config_routes.rs:1530-1547`) does not take the lock; atomicity is stated for locked edits only, and every handler of a recording location counts as one step.
- Default seeding of recording locations and policies at start, group edits, and the moving of recordings between locations.
- Collation of policy names in the database is modelled as the order of their characters.
- The suffix counter of the name search is 32 bits wide in the code and unbounded here.
- PolicyDb.Database.FindMatchingPolicy: every policy has a name, as the schema demands (`db/migrations/0068_recording_policy_explicit_membership.sql:142`); the query also passes over nameless rows, which only a release before that could write.
- Validation of the icon and the size of a recording location: they do not affect paths or references.
- FileSystem: a link is given by the place it leads to in the end; loops and dangling links count as absent.
- Watchdog: the latches for recorder, Frigate and backup state are single-flag versions of the same argument; `low_disk` and `policy_over_cap` have no latch.
- Watchdog: the database clock and the tick clock are exact milliseconds.
- ClipCache: ids of detections and of ongoing events, whose window changes under one name, thumbnails, and UUIDs spelled without hyphens.
- ClipNames.ParsePrintedId: the range in which an instant can be represented as a calendar date is not modelled beyond 64 bits.
- Singleflight: the look into the registry, its emptying and the insertion are one step; the client's read of the file is not modelled.
- ClipPrune: deletions by the periodic sweeper; modification times as integers.
- PassVotes: confidences and clocks are exact reals; the frame's crop, box and region are one value.
- PlateWorker: model inference, motion detection by pixels, and frames skipped after an exception.
- Polygons.PointInPoly: exact coordinates; the guard against a horizontal edge is not needed because such an edge is never crossed.
- Polygons.CutPolygon: with floating point the crossing of an edge may round differently in its two directions, so a point within a rounding error of the diagonal may count in both pieces or in none; coordinates are exact here.
- Polygons.ReversedPolygon: for the same reason a point within a rounding error of an edge is not covered.
- ClipFeed.GetClips: the caller's camera scope, which answers an empty page when it is empty, and the descriptive fields of a clip.
- ContributeUrl.ComputeDecode: works on bytes; the lossy conversion of the result to text is left out.
- BackupTiers.TiersHoldTheNewest: between the runs nobody else changes the tier; from whatever state someone leaves it in, the theorem starts afresh. Nor may a name make the recogniser panic, which is what `JobSurvivesExactly` is about.
- BackupRuns: the `-latest` links as files, entries that are not regular files, a directory that cannot be listed, and the schedule; whether a run is due at start is a free choice. Stamps that increase and ISO weeks that do not decrease are premises, computed by the calendar library.
- Sessions, routing, notification channels, environment parsing, HTTP, SQL text, ffmpeg and `pg_dump` themselves.
