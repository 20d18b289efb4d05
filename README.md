# Media deletion helper: a verified model of the file-list core

The media deletion helper is an Electron desktop viewer for working through a
directory of images and videos. The user selects a directory and steps through
the media in it with the arrow keys. Each file can be deleted (Up arrow), moved
to a chosen directory (`m`) or moved to one of nine quick-move folders (keys
1-9). Deletes and quick moves can be undone (Down arrow or Ctrl+Z); a move to a
chosen directory records no undo entry. A deleted file is not
destroyed: the main process copies it into a quarantine directory under the
system temp directory, and undo copies it back.

This project models the part of the program that decides what the user sees
and what happens to the files:

- the renderer's file-list state (`renderer.js`), as the `Session.Session`
  class. It holds:
  - the full directory listing, the filtered view `images` and the cursor
    `currentIndex`;
  - the unified undo stack and the operation queue that runs deletes and
    undos one at a time;
  - the `updateMedia` re-entrancy guard and its metadata retry loop;
  - `cleanupMissingFile`, `refreshDirectoryListing`, `loadDirectory`, the
    filter, the subfolder checkbox, and moving files.
- the video element and the video start and skim settings (`Playback.Player`),
  and the settings clamps (`Playback`).
- the quick-move folder groups (`QuickMove.QuickSortGroups`).
- the key dispatch (`Keys`).
- in `main.js`: the recursive directory scan `getAllFiles` and its handler
  (`Traversal`), and the delete and undelete handlers over a map-valued file
  system (`Quarantine.FileSystem`).

Supporting modules give the JavaScript library behaviour the core relies on:

- `Paths`: `path.join`, `path.basename` and the case-insensitive suffix test of
  an `/i` regular expression;
- `Text`: `split`, `parseInt`, `padStart` and `formatDuration`;
- `Formats`: `getEnabledFormats`, the format regular expression and
  `filterFiles`;
- `Ordering`: `Array.prototype.sort` and the insertion point of the undo path;
- `Listing`: the file-list transitions as pure functions on a `View`.

Each handler is one atomic step. What the main process, the file system, a
dialog or the clock answers is a parameter of the step:

- `MediaProbe` says whether the file exists, how many metadata calls fail and
  whether the metadata has a size;
- `UndoOutcome` says whether an undo's call succeeded and whether the file is
  there afterwards;
- `reply` is the delete or move reply;
- `scan` and `rescan` are what a directory scan returned, or `None` when the
  scan rejected;
- `IoFaults` says which file-system calls fail.

The invariant `Session.Session.Valid` is kept by every handler:

- the cursor lies in the view;
- the view is empty while no directory is loaded;
- every file in the view is in the full listing, counting duplicates
  (`Listing.Consistent`);
- no media update or refresh is half done.

`QueueOrdered` records that tasks start in the order they were queued.

## Model

| member | source | states |
|---|---|---|
| `Paths.JoinInjective` | main.js:85 | Joining one directory with two names gives the same path exactly when the names are equal |
| `Paths.Basename` | main.js:84 | The base name has no separator and is the last component of the path once trailing separators are stripped |
| `Paths.FoldCaseAll` | renderer.js:89 | Case folding keeps the length and folds each character on its own |
| `Paths.EndsWithIgnoringCaseFolds` | renderer.js:88-92 | The suffix test holds exactly when the path's tail, case-folded, equals the case-folded suffix |
| `Text.Split` | renderer.js:57 | Splitting gives at least one piece, and no piece contains the separator |
| `Text.SplitThenJoin` | renderer.js:57 | Joining the pieces of a split with the separator gives back the original string |
| `Text.JoinThenSplit` | renderer.js:89 | Splitting a join of separator-free pieces gives back the pieces |
| `Text.NatToString` | renderer.js:234 | The decimal text of a number is non-empty, all digits and without a leading zero |
| `Text.NatToStringValue` | renderer.js:234 | The decimal text of a number denotes that number |
| `Text.LeadingDigits` | renderer.js:401 | The digits parseInt reads are a prefix of the text and stop at the first non-digit |
| `Text.TrimStart` | renderer.js:401 | Stripping leading white space leaves a suffix of the text that starts with a non-space |
| `Text.ParseIntOfDigits` | renderer.js:357 | parseInt of a string of digits is its decimal value |
| `Text.ParseIntOfNegatedDigits` | renderer.js:401 | parseInt of a minus sign followed by digits is the negated value |
| `Text.ParseIntSkipsLeadingSpace` | renderer.js:401 | Any ECMA-262 white-space or line-terminator character before the number leaves parseInt's result unchanged |
| `Text.ParseIntOfIntToString` | renderer.js:400-402 | Every integer written in decimal reads back as itself under parseInt |
| `Text.PadStart2` | renderer.js:234 | Padding to two characters keeps longer text and prefixes zeros to shorter text |
| `Text.FormatDurationParts` | renderer.js:231-235 | For a non-negative time the label is minutes and seconds, with seconds below 60, and together they make up the whole seconds |
| `Text.DurationLabelRoundTrip` | renderer.js:234 | A "minutes:seconds" label parses back as the total number of seconds |
| `Text.FormatDurationRoundTrip` | renderer.js:231-235 | Parsing the label of a non-negative time gives the time rounded down to whole seconds |
| `Formats.CheckedFormatsMembers` | renderer.js:55-59 | A format is collected exactly when some checked box lists it among its comma-separated formats |
| `Formats.GroupFormatsMembers` | renderer.js:54-68 | A group whose toggle is off contributes nothing; otherwise exactly the formats of its checked boxes |
| `Formats.EnabledFormatsMembers` | renderer.js:51-71 | The enabled formats are the image group's followed by the video group's, and a format is enabled exactly when one group enables it |
| `Formats.Alternatives` | renderer.js:89 | The regular expression always has at least one alternative |
| `Formats.NoFormatsAlternative` | renderer.js:89 | With no formats enabled, the pattern's only alternative is empty |
| `Formats.AlternativesOfFormats` | renderer.js:89 | With formats free of the bar character, the alternatives are exactly the formats |
| `Formats.MatchesSomeIffAny` | renderer.js:88-92 | The pattern matches exactly when the path ends, ignoring case, in a dot and one of the alternatives |
| `Formats.NoFormatsMatchTrailingDot` | renderer.js:88-92 | With no formats enabled, exactly the paths ending in a dot still pass the filter |
| `Formats.MatchesEnabledExtension` | renderer.js:88-92 | With formats enabled, a path passes exactly when it ends, ignoring case, in "." and one of them |
| `Formats.IsVideoMatchesVideoFormats` | renderer.js:47-49 | A path is a video exactly when it ends, ignoring case, in .mp4, .webm or .mov |
| `Formats.FilterFiles` | renderer.js:92 | The filtered files are a sub-multiset of the listing |
| `Formats.FilterFilesSelects` | renderer.js:87-96 | Filtering keeps exactly the listed files that match, each as often as it is listed, in listing order |
| `Ordering.CodeUnitLessIrreflexive` | renderer.js:783 | The default sort order never puts a string before itself |
| `Ordering.CodeUnitLessTransitive` | renderer.js:783 | The default sort order is transitive |
| `Ordering.CodeUnitLessTotal` | renderer.js:783 | Any two distinct strings are ordered one way or the other |
| `Ordering.CodeUnitOrderIsStrictTotal` | renderer.js:783 | The default sort order is a strict total order |
| `Ordering.InsertSorted` | renderer.js:782-783 | Inserting adds exactly the one element and keeps all the others |
| `Ordering.InsertSortedKeepsOrder` | renderer.js:782-783 | Inserting into a sorted list keeps it sorted |
| `Ordering.SortBy` | renderer.js:783 | Sorting permutes the list |
| `Ordering.SortByIsSorted` | renderer.js:783 | Sorting by a strict total order leaves the list sorted |
| `Ordering.Sort` | renderer.js:783 | The default sort permutes the list |
| `Ordering.SortIsSorted` | renderer.js:783 | The default sort leaves the list sorted |
| `Ordering.SortedHeadsAgree` | renderer.js:783 | Two sorted arrangements of the same multiset start with the same element |
| `Ordering.SortedArrangementUnique` | renderer.js:783 | Two sorted arrangements of the same multiset are equal, so the sorted order does not depend on the order of input |
| `Ordering.PushThenSortInserts` | renderer.js:780-783 | Pushing onto a sorted listing and sorting again inserts the new path in place |
| `Ordering.FirstNotLess` | renderer.js:792-796 | The insertion point is in range, everything before it sorts before the path, and the element at it does not |
| `Ordering.InsertIndex` | renderer.js:791-796 | The scanning loop stops at the insertion point |
| `Ordering.FirstNotLessSplitsSorted` | renderer.js:792-796 | In a sorted view nothing from the insertion point on sorts before the path |
| `Listing.Clamp` | renderer.js:91 | The clamped cursor is 0 for an empty view and otherwise in range, never moves right, keeps an in-range cursor and moves an out-of-range one to the last file |
| `Listing.MoveCursorKeepsConsistent` | renderer.js:328-340 | Moving the cursor within the view keeps the view consistent |
| `Listing.Refilter` | renderer.js:87-96 | Refiltering without a listing changes nothing; with one it keeps the listing and gives a consistent view |
| `Listing.RefilterSelects` | renderer.js:87-96 | The refiltered view holds exactly the matching listed files, in listing order, and keeps a cursor that is still in range |
| `Listing.RemoveAt` | renderer.js:255 | Splicing out one file keeps the files before it and removes exactly that file |
| `Listing.RemoveAtShifts` | renderer.js:255 | Files after the removed one move one place to the left |
| `Listing.RemoveCurrent` | renderer.js:255-258 | Removing the current file keeps the listing, drops exactly that file, and leaves the cursor on the next file, or on the new last file when it removed the last one; consistency is kept |
| `Listing.IndexOf` | renderer.js:879 | indexOf is -1 exactly when the file is absent, and otherwise the first position holding it |
| `Listing.RemoveFirst` | renderer.js:885-890 | Removing a file's first occurrence drops exactly one copy of it, and changes nothing when it is absent |
| `Listing.RemoveMissing` | renderer.js:877-899 | Cleaning up a missing file drops one copy of it from the view and from the listing, clamps the cursor unless the view became empty, and keeps consistency |
| `Listing.RemoveFirstKeepsOrder` | renderer.js:885-890 | The splice takes out the first occurrence only; the entries before and after it keep their order |
| `Listing.RemoveMissingKeepsOrder` | renderer.js:877-890 | Cleanup removes the first occurrence from the view and from the listing and keeps the rest of each in order; an absent file leaves both as they were |
| `Listing.Refreshed` | renderer.js:902-932 | A refresh installs the rescanned listing, follows the current file when it survives, otherwise clamps the cursor, and keeps consistency |
| `Listing.RefreshedSelects` | renderer.js:910-914 | After a refresh the view holds exactly the matching rescanned files, in listing order |
| `Listing.AddToListing` | renderer.js:780-783 | The restored path ends up in the listing; a listing that had it is unchanged, and otherwise exactly one copy is added |
| `Listing.AddToListingSorted` | renderer.js:780-783 | When the path was missing, the listing comes out sorted |
| `Listing.InsertAt` | renderer.js:800 | Splicing a path in places it at the index, keeps the files before it, and adds exactly that path |
| `Listing.RemoveThenInsert` | renderer.js:800 | Splicing a file back in at the place it was removed from restores the list |
| `Listing.InsertAtShifts` | renderer.js:800 | Files after the insertion point move one place to the right |
| `Listing.Restored` | renderer.js:780-804 | The undo places the path in the listing; a non-matching path leaves the view alone; a matching path ends under the cursor, inserted at the first position not sorting before it unless the view already had it |
| `Listing.Restore` | renderer.js:780-804 | The undo's in-place update computes the restored view |
| `Listing.RestoredConsistent` | renderer.js:780-804 | The restored view is consistent |
| `Listing.RemovedFileLeavesView` | renderer.js:255 | In a strictly sorted view the removed file no longer appears |
| `Listing.InsertionPointIsOldPosition` | renderer.js:792-796 | In a strictly sorted view a removed file's insertion point is where it was |
| `Listing.UndoRestoresView` | renderer.js:255-258 | Undoing the removal of the current file from a strictly sorted view gives back the view with the same cursor |
| `Listing.RestoredKeepsSorted` | renderer.js:792-801 | A restore keeps a strictly sorted view strictly sorted |
| `Playback.FixedTimeSetting` | renderer.js:400-402 | The fixed start time is the parsed number when positive, and 0 for text that does not parse or is not positive |
| `Playback.PercentageSetting` | renderer.js:404-406 | The percentage is the parsed number clamped to 0..100, and 0 for text that does not parse |
| `Playback.SpanSetting` | renderer.js:415-421 | A skim span is at least 1: the default for text that does not parse or parses to 0, 1 for negative text, and otherwise the number |
| `Playback.ZeroSpanGivesDefault` | renderer.js:416 | Entering 0 gives the default span rather than 1 |
| `Playback.StartTime` | renderer.js:437-450 | The start is 0 from the beginning, the fixed time only when the video is longer than it, and the given share of the duration in percentage mode; it lies within the video |
| `Playback.SkimDecision` | renderer.js:484-501 | Skimming is idle unless enabled and active; it waits until the play span has passed; then it jumps by the skip span, or finishes when that would reach the end |
| `Playback.SkimJumpsForward` | renderer.js:490-499 | A skim jump moves at least one second forward and stays inside the video, and skimming then waits a full play span |
| `Playback.Player.constructor` | renderer.js:4-15 | The start settings begin at the beginning mode, with a 2-second play span, a 10-second skip span, speed 1 and skimming off |
| `Playback.Player.Stop` | renderer.js:98-104 | Stopping pauses the video, clears its source and ends skimming; the cleared source forgets the duration, rewinds the position to 0 and resets the rate to the default 1 |
| `Playback.Player.Load` | renderer.js:189-194 | Loading a video sets its source and queues one start for its metadata; until that metadata arrives the duration is unknown, the position 0 and the rate the default 1 |
| `Playback.Player.StartSkimming` | renderer.js:503-507 | Skimming starts from the current time and plays |
| `Playback.Player.SetVideoStartTime` | renderer.js:437-460 | The video jumps to the start time at the chosen speed and plays, skimming from there when skimming is enabled |
| `Playback.Player.LoadedMetadata` | renderer.js:431-435 | Metadata records the duration and runs every queued start once |
| `Playback.Player.HandleSkimming` | renderer.js:484-501 | The video element changes exactly as the skim decision says |
| `Playback.Player.TimeUpdate` | renderer.js:534 | On each time update, idling or waiting leaves playback at the new time with nothing else changed; a jump lands at least one second ahead and inside the video and keeps the pause and skim state; a finish stops skimming and pauses at the new time |
| `Playback.Player.SetMode` | renderer.js:395-397 | The chosen start mode applies |
| `Playback.Player.SetFixedTime` | renderer.js:400-402 | The fixed time is the clamped setting |
| `Playback.Player.SetPercentage` | renderer.js:404-406 | The percentage is the clamped setting |
| `Playback.Player.SetPlayDuration` | renderer.js:415-417 | The play span is the clamped setting, default 3 |
| `Playback.Player.SetSkipDuration` | renderer.js:419-421 | The skip span is the clamped setting, default 10 |
| `Playback.Player.SetSkimEnabled` | renderer.js:408-413 | Enabling skimming on a video whose metadata has arrived since its source was last set starts it; otherwise only the setting changes |
| `Playback.Player.SetPlaybackSpeed` | renderer.js:423-428 | The speed setting also applies to the playing video |
| `Quarantine.Copy` | main.js:89 | A copy succeeds exactly when the source exists, and it writes the destination and nothing else |
| `Quarantine.Unlink` | main.js:91 | Unlinking succeeds exactly when the file exists, and it removes that file and nothing else |
| `Quarantine.FileSystem.constructor` | main.js:8 | The file system starts with the given files and quarantine directory |
| `Quarantine.FileSystem.DeleteImage` | main.js:82-98 | Deleting makes the directory, copies the file to its quarantine path and unlinks the original, stopping at the first failure |
| `Quarantine.FileSystem.UndeleteImage` | main.js:100-113 | Undeleting copies the quarantined file back and unlinks the copy, stopping at the first failure |
| `Quarantine.DeleteMovesToQuarantine` | main.js:82-98 | A delete succeeds exactly when the file exists and no step fails; then the file's content sits at the quarantine path and the original is gone |
| `Quarantine.FailedDeleteKeepsFile` | main.js:87-91 | A delete that fails before the unlink leaves the files alone; one that fails at the unlink leaves both copies |
| `Quarantine.UndeleteWithoutCopyFails` | main.js:104 | Undeleting a file with nothing at its quarantine path fails and changes nothing |
| `Quarantine.DeleteThenUndelete` | main.js:82-113 | A fault-free delete followed by its undelete gives back every file, with nothing left at the quarantine path |
| `Quarantine.SameBasenameOverwrites` | main.js:84-85 | Deleting two files with the same base name and then undoing the first restores the second file's content in its place |
| `Quarantine.SharedSlotOverwrites` | main.js:89 | Two deletes into the same quarantine path keep only the second file's content |
| `Quarantine.DeletingQuarantinedFileLosesIt` | main.js:89-91 | Deleting a file that already sits at its own quarantine path reports success and removes it |
| `QuickMove.AddedFolders` | renderer.js:634-648 | A folder is added exactly when the group has fewer than nine, the dialog returned a path and it is new; it goes at the end |
| `QuickMove.SpliceStart` | renderer.js:652 | The splice starts inside the list, at the index itself when the index is in range |
| `QuickMove.AddKeepsGroupValid` | renderer.js:634-648 | Adding keeps a group within nine distinct folders and puts the new folder last |
| `QuickMove.RemoveDropsSlot` | renderer.js:650-656 | Removing an in-range slot drops exactly that folder and shifts the later ones left |
| `QuickMove.RemoveKeepsGroupValid` | renderer.js:650-656 | Removing with any index keeps a group within nine distinct folders it already had |
| `QuickMove.RemoveSlotKeepsDistinct` | renderer.js:652 | Removing a slot shortens the group, keeps it distinct and adds no folder |
| `QuickMove.QuickSortGroups.CurrentFolders` | renderer.js:635 | A missing group reads as empty; a valid group has at most nine distinct folders |
| `QuickMove.QuickSortGroups.constructor` | renderer.js:975 | The groups start as three empty groups with the first one selected |
| `QuickMove.QuickSortGroups.SelectGroup` | renderer.js:1014-1026 | Selecting a tab changes the current group only |
| `QuickMove.QuickSortGroups.AddFolder` | renderer.js:634-648 | Adding stores the grown group under the current name, or changes nothing, and keeps the groups valid |
| `QuickMove.QuickSortGroups.RemoveFolder` | renderer.js:650-656 | Removing stores the spliced group under the current name and keeps the groups valid |
| `Keys.SwitchCommand` | renderer.js:328-354 | Exactly the four arrows, `f` and `m` issue a command from the switch, and none of them is a quick move |
| `Keys.QuickSlotCommand` | renderer.js:356-363 | A quick move needs no Ctrl or Alt and a key other than 0, and goes to one of the current group's folders |
| `Keys.KeyCommands` | renderer.js:322-370 | The three checks together issue at most three commands per key press; the lemmas below state which |
| `Keys.SwitchCommandFirst` | renderer.js:328-354 | When the `switch` fires, its command is the first one the key press issues |
| `Keys.UndoExactlyForDownOrCtrlZ` | renderer.js:328-369 | A key press issues undo exactly when the key is the Down arrow or Ctrl+Z |
| `Keys.QuickMoveNeedsNoModifier` | renderer.js:356-363 | A quick move is issued only without Ctrl or Alt and only to a folder of the current group |
| `Keys.ParseSingleDigit` | renderer.js:357 | parseInt of a digit key is that digit |
| `Keys.ParseWhitespaceChar` | renderer.js:357 | parseInt of a white-space key is not a number |
| `Keys.OnlySwitchFires` | renderer.js:322-370 | A key that is not a digit, not white space and not z issues only its switch command |
| `Keys.DigitKeySelectsSlot` | renderer.js:356-363 | Digit keys 1 to 9 without Ctrl or Alt move to that slot when it exists, and otherwise do nothing |
| `Keys.ZeroKeyDoesNothing` | renderer.js:356 | The 0 key issues no command |
| `Keys.QuickMoveOnlyFromDigits` | renderer.js:356-363 | Of the one-character keys only 1 to 9 can trigger a quick move |
| `Keys.CtrlZUndoes` | renderer.js:365-369 | Ctrl+Z with either letter case undoes once |
| `Keys.ArrowKeysIssueOneCommand` | renderer.js:328-346 | Each arrow key issues exactly its own command, modifiers or not |
| `Traversal.GetDirectoryContents` | main.js:219-226 | The handler returns the scan, or an empty list when any directory on the way cannot be read |
| `Traversal.ScanListsReachableFiles` | main.js:205-217 | A successful scan lists exactly the files reachable from the directory, descending into subdirectories only when asked |
| `Traversal.EntriesListReachable` | main.js:207-216 | A list of entries yields exactly the files some entry yields |
| `Traversal.EntryListsReachable` | main.js:209-213 | An entry yields its own path if it is a file, its subtree's files if it is a directory being descended into, and nothing otherwise |
| `Traversal.DirectFiles` | main.js:207-216 | A flat scan yields at most one path per entry |
| `Traversal.FlatScanIsDirectFiles` | main.js:205-217 | A scan without subfolders is the joined paths of the plain files, in directory order |
| `Traversal.FlatEntriesAreDirectFiles` | main.js:207-216 | Without subfolders no entry list can fail |
| `Traversal.ScanSplices` | main.js:207-216 | A scan is the concatenation of the scans of the two halves of the directory's entries, in order |
| `Traversal.SplitEntries` | main.js:207-216 | Scanning a list of entries splices the scans of any split of it, in order |
| `Traversal.UnreadableSubfolderEmptiesScan` | main.js:219-226 | One unreadable subfolder makes the whole recursive scan come back empty |
| `Session.UndoCall` | renderer.js:754-767 | A delete is undone by undeleting its original path; a move by moving the destination back to the source's directory |
| `Session.FetchMetadataWithRetry` | renderer.js:162-173 | Metadata arrives exactly when fewer than three calls fail, after one more call than the failures, and never after more than three calls |
| `Session.AfterUpdate` | renderer.js:128-216 | An update keeps the cursor in range and the view consistent, and a file that does not load leaves the view one file shorter |
| `Session.LoadedVideo` | renderer.js:189-194 | A video is loaded exactly when the current file loads and is a video |
| `Session.ShownAfter` | renderer.js:135-212 | Nothing is shown for an empty view, the current file when it loads, and otherwise what was shown before |
| `Session.Session.constructor` | renderer.js:1-27 | The renderer starts with no directory, no listing, an empty view, an empty undo stack and queue, and subfolders off |
| `Session.Session.UpdateMedia` | renderer.js:128-216 | A call during an update changes nothing; otherwise the view becomes the updated view, the player shows what loaded, and consistency is kept |
| `Session.Session.ShowCurrent` | renderer.js:133-212 | The guarded body stops the media, then shows the current file or cleans it up as missing |
| `Session.Session.DropMissing` | renderer.js:203-212 | A file that fails to load is cleaned up, the display and player are left alone, and the retry returns at the guard |
| `Session.Session.CleanupMissingFile` | renderer.js:877-899 | The missing file leaves the view and the listing |
| `Session.Session.Next` | renderer.js:335-340 | The Right arrow at the last file changes nothing (view, display and player); otherwise the cursor moves right and the media updates. The display then shows what the update loaded, and the player is paused, not skimming, and holds the loaded video (or nothing), with one pending start queued for it |
| `Session.Session.Previous` | renderer.js:329-334 | The Left arrow at the first file changes nothing (view, display and player); otherwise the cursor moves left and the media updates. The display then shows what the update loaded, and the player is paused, not skimming, and holds the loaded video (or nothing), with one pending start queued for it |
| `Session.Session.ApplyFilter` | renderer.js:87-96 | Filtering does nothing before a directory is loaded, and otherwise refilters, updates the media and restores the invariant, leaving the open directory alone. The display then shows what the update loaded, and the player is paused, not skimming, and holds the loaded video (or nothing), with one pending start queued for it |
| `Session.Session.SetFormats` | renderer.js:372-383 | A changed toggle or checkbox records the new enabled formats; without a listing the view, display and player stay as they are, otherwise the view is refiltered and the display shows what the update loaded |
| `Session.Session.LoadDirectory` | renderer.js:110-125 | The media is stopped first (paused, no source, not skimming, no start queued); a cancelled dialog changes nothing else; a chosen directory becomes the open one; when its scan rejects the view stays as it was, otherwise the scan is filtered from the first file and the display shows what the update loaded |
| `Session.Session.OpenDirectory` | renderer.js:114-124 | The chosen directory becomes the open one; a rejected scan leaves the view, display and player as they are; otherwise the scan becomes the listing and the filtered view from the first file is updated and shown |
| `Session.Session.SetIncludeSubfolders` | renderer.js:562-569 | The checkbox applies; with no open directory, or when the rescan rejects, the view, display and player stay as they are; otherwise the rescan is refiltered from the old cursor and the display shows what the update loaded |
| `Session.Session.Rescan` | renderer.js:564-565 | A resolved rescan replaces the listing, the view is refiltered from the old cursor and the display shows what the update loaded |
| `Session.Session.RefreshDirectoryListing` | renderer.js:902-932 | With no directory, or during a refresh, nothing changes; otherwise the flag ends cleared, and the refreshed view is installed when the rescan resolves and the view kept when it rejects |
| `Session.Session.ProcessNextOperation` | renderer.js:725-730 | An idle queue with work starts its first task and marks itself busy; otherwise nothing changes; tasks start in queue order |
| `Session.Session.FinishOperation` | renderer.js:734-738 | The `finally` clears the busy flag whatever the operation did, leaves the queue alone, and another run is scheduled exactly when tasks remain |
| `Session.Session.RunOperation` | renderer.js:729-733 | Only the operation that was started last runs, with the busy flag set: a delete task makes no gateway call and has the whole effect of `RunDeleteTask` (undo stack, view, display and player, the stopped player on failure), an undo task that of `RunUndoTask`, and an operation with nothing to do leaves the player alone; the flag stays set and the queue is untouched until `FinishOperation` |
| `Session.Session.Enqueue` | renderer.js:238-268 | A task joins the back of the queue and starts at once when the queue is idle |
| `Session.Session.DeleteCurrentImage` | renderer.js:237-269 | A delete request queues a delete task |
| `Session.Session.HandleUndo` | renderer.js:742-828 | An undo request queues an undo task |
| `Session.Session.RemoveCurrentAndUpdate` | renderer.js:255-259 | The current file leaves the view and the media updates, keeping the invariant. The display then shows what the update loaded, and the player is paused, not skimming, and holds the loaded video (or nothing), with one pending start queued for it |
| `Session.Session.RunDeleteTask` | renderer.js:238-266 | Runs only inside a started operation. An empty view does nothing; a failed delete stops the media only, queuing no start; a successful one records the undo entry, removes the current file and shows what the update loaded |
| `Session.Session.MoveToQuickFolder` | renderer.js:658-689 | An empty view does nothing; a failed move changes no file list and leaves the media stopped, the player empty and no start queued; a successful one records a move entry, removes the current file and shows what the update loaded |
| `Session.Session.MoveCurrentFile` | renderer.js:934-962 | A cancelled dialog or failed move changes no file list and leaves the media stopped, the player empty and no start queued; a successful move removes the current file and shows what the update loaded; no undo entry is recorded |
| `Session.Session.RunUndoTask` | renderer.js:742-828 | Runs only inside a started operation. An empty stack changes nothing. Otherwise the undo pops the last entry and makes its call. On failure, a missing file or no listing it puts the entry back, refreshes (keeping the view when the rescan rejects) and leaves the media stopped with no start queued. Otherwise it restores the file into the listing and view; a restored file that passes the filter is shown, and a restored video is loaded again with a start that also plays it |
| `Session.Session.KeepUndoEntry` | renderer.js:750-824 | The failed undo stops the media, puts its entry back on the stack and refreshes the listing (the view is kept when the rescan rejects); no start is queued |
| `Session.Session.FinishRestore` | renderer.js:750-817 | The media is stopped, then the restored file is placed and, when it passes the filter, shown (a video with a play-on-start request); otherwise the media stays stopped |
| `Session.Session.ShowRestored` | renderer.js:786-816 | A restored path that matches the filter ends under the cursor and is shown, and a restored video becomes the player's source with a start that also plays it; otherwise only the listing changes |
| `Session.Session.RefreshRestored` | renderer.js:806-815 | The restored view is updated and shown; a restored video is loaded again and queues a start that also plays it |
| `Session.Session.PlaceRestored` | renderer.js:780-804 | The restored path is placed in the listing and view, keeping the invariant |

## Left out

- I/O, timers, promises and the DOM are not modelled. Each handler is one
  atomic step, and what the main process, the file system or a dialog answers
  is a parameter: `MediaProbe`, `UndoOutcome`, the delete or move reply, and
  the scan result. `moveFile`, `fileExists`, `getFileMetadata`,
  `getParentDirectory`, `selectDirectory` and `selectMoveDirectory` are such
  parameters. Metadata probing itself (ffprobe, image-size) is not part of
  this model.
- preload.js (lines 3-9) does not expose `getDirectoryContents`, `moveFile`,
  `fileExists`, `getParentDirectory` or `selectMoveDirectory`, so in the shipped
  app those calls reject. The model takes their answers as parameters; a
  rejection is a `None` scan, a failed reply or a failed `UndoOutcome`.
- `localStorage` persistence of settings, groups and tab names is not
  modelled. Nor are tab creation and renaming, the counter and file-name text,
  `formatFileSize`, `toggleFullscreen`, `openFile` and the "open directory"
  button.
- The legacy `deletedImages` list and `undoDelete` (renderer.js:271-318) are
  not modelled. No key or button reaches them; undo goes through the unified
  `undoStack`.
- The subfolder depth is not modelled. `getAllFiles` takes no depth argument,
  and the renderer's depth input is only passed along.
- The fixed start time is the fixed time only when the video is longer than
  it, and 0 otherwise, as the code does; it is not the minimum of the two.
- The file-list invariant is multiset inclusion of the view in the listing,
  not "the view is a subsequence of the listing". The undo path inserts by
  locale order into the view but sorts the listing by code units, so the two
  orders can differ.
- A delete or move removes the file from the view only, as the code does;
  the full listing keeps it until the next scan.
- The default `sort()` compares characters, which agrees with UTF-16 code
  units only for characters of the Basic Multilingual Plane. `localeCompare` is
  an arbitrary comparison `less` given to the session. Orderings are proved for
  any strict total order.
- `Number(key)`/`isNaN` and `parseInt` are modelled over the keys and text
  the handlers see. The model covers decimal digits, a sign and leading white
  space (the WhiteSpace and LineTerminator characters of ECMA-262: tab, vertical
  tab, form feed, the byte order mark, every Unicode space separator, line feed,
  carriage return, U+2028 and U+2029), but not the `0x` prefix, exponents or
  fractional text.
- `parseFloat` of the playback speed is a real parameter, and times are
  reals, with no floating-point rounding.
- `path.join` and `path.basename` use the POSIX separator and do not
  normalise `..` or repeated separators. Windows back-slash paths are not
  modelled.
- `fs.copyFile` onto its own source is modelled as leaving the file as it is.
- The file system is a map from paths to contents. Directories are not
  modelled as entries, so `mkdir` is a parameter that succeeds or fails.
  `IoFaults` says which later call fails.
- Session.Session.ShowRestored: states that a restored video becomes the
  player's source as its path, without the `file://` prefix; the start that the
  queued request runs is `Playback.Player.LoadedMetadata`'s contract.
- Session.Session.RunUndoTask: states the same about the restored video as
  `ShowRestored`.
- Session.Session.DeleteCurrentImage: states what is queued, not when the queued
  operation starts; `Enqueue` states that, and `RunOperation` what it does once
  started.
- Session.Session.HandleUndo: states what is queued, not when the queued operation
  starts; `Enqueue` states that, and `RunOperation` what it does once started.
