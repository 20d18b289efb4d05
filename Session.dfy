/** The renderer's module-level state and the handlers that change it: the file
    list and cursor, the media display, the unified undo stack and the queue
    that runs deletes and undos one at a time. Every handler is one atomic step;
    what the main process, the file system or the user answers is a parameter. */
module Session {
  import opened Wrappers
  import opened Paths
  import opened Formats
  import opened Ordering
  import opened Listing
  import opened Playback

  /** An operation in `operationQueue`: the body `deleteCurrentImage` or
      `handleUndo` pushed. */
  datatype Task = DeleteTask | UndoTask

  /** An entry of the unified undo stack. */
  datatype UndoEntry =
    | DeleteEntry(originalPath: Path, tempPath: Path)
    | MoveEntry(sourcePath: Path, destinationPath: Path)

  /** The call an undo makes to the main process: `undeleteImage(originalPath)`,
      or `moveFile(destinationPath, getParentDirectory(sourcePath))`. */
  datatype GatewayCall = NoCall | Undelete(originalPath: Path) | MoveBack(destinationPath: Path, sourcePath: Path)

  /** The undo call for an entry, and the path it brings back. */
  function UndoCall(e: UndoEntry): (call: GatewayCall)
    ensures e.DeleteEntry? ==> call == Undelete(e.originalPath)
    ensures e.MoveEntry? ==> call == MoveBack(e.destinationPath, e.sourcePath)
  {
    match e
    case DeleteEntry(original, _) => Undelete(original)
    case MoveEntry(source, destination) => MoveBack(destination, source)
  }

  function RestoredPath(e: UndoEntry): Path
  {
    match e
    case DeleteEntry(original, _) => original
    case MoveEntry(source, _) => source
  }

  /** What loading the current file meets: whether `fileExists` says it is there,
      how many `getFileMetadata` calls reject before one resolves, and whether
      the resolved metadata carries a size (`formatFileSize(undefined)` throws). */
  datatype MediaProbe = MediaProbe(fileExists: bool, failedAttempts: nat, hasSize: bool)

  /** What an undo's external calls answer: the undelete or move-back call's
      `success`, and `fileExists` of the restored path afterwards. */
  datatype UndoOutcome = UndoOutcome(succeeded: bool, restoredExists: bool)

  /** The metadata loop tries at most three times. */
  const MaxMetadataAttempts: nat := 3

  /** The metadata retry loop: each rejected call is retried until three calls
      have rejected, when the error propagates. */
  method FetchMetadataWithRetry(failedAttempts: nat) returns (ok: bool, attempts: nat)
    ensures ok <==> failedAttempts < MaxMetadataAttempts
    ensures attempts == if ok then failedAttempts + 1 else MaxMetadataAttempts
    ensures 1 <= attempts <= MaxMetadataAttempts
  {
    var retryCount := 0;
    ok := false;
    attempts := 0;
    while retryCount < MaxMetadataAttempts
      invariant retryCount <= MaxMetadataAttempts
      invariant retryCount <= failedAttempts
      invariant attempts == retryCount
      decreases MaxMetadataAttempts - retryCount
    {
      attempts := attempts + 1;
      if retryCount == failedAttempts {
        ok := true;
        break;
      }
      retryCount := retryCount + 1;
    }
  }

  /** The file loads: it exists, its metadata arrives within three tries and has
      a size. */
  predicate Loads(probe: MediaProbe)
  {
    probe.fileExists && probe.failedAttempts < MaxMetadataAttempts && probe.hasSize
  }

  /** The file list after `updateMedia()` with the guard clear: unchanged when the
      view is empty or the current file loads; otherwise the current file is
      cleaned up as missing (the retry it then starts returns at the guard). */
  function AfterUpdate(v: View, probe: MediaProbe): (r: View)
    requires IndexInRange(v.images, v.index)
    ensures IndexInRange(r.images, r.index)
    ensures Consistent(v) ==> Consistent(r)
    ensures v.images != [] && !Loads(probe) ==> |r.images| == |v.images| - 1
  {
    if v.images == [] || Loads(probe) then v
    else
      var r := RemoveMissing(v, v.images[v.index]);
      assert |multiset(r.images)| == |multiset(v.images)| - 1 by {
        assert v.images[v.index] in multiset(v.images);
      }
      r
  }

  /** The video `updateMedia()` puts into the player, if any. */
  function LoadedVideo(v: View, probe: MediaProbe): (f: Option<Path>)
    requires IndexInRange(v.images, v.index)
    ensures f.Some? <==> v.images != [] && Loads(probe) && IsVideo(v.images[v.index])
    ensures f.Some? ==> f.value == v.images[v.index]
  {
    if v.images != [] && Loads(probe) && IsVideo(v.images[v.index]) then Some(v.images[v.index]) else None
  }

  /** The file last handed to the image or video element after `updateMedia()`:
      nothing for an empty view, the current file when it loads, and otherwise the
      one handed over before. A video among them is on screen only while the
      player's source still holds it, since stopping the media clears that source. */
  function ShownAfter(v: View, probe: MediaProbe, shown: Option<Path>): (r: Option<Path>)
    requires IndexInRange(v.images, v.index)
    ensures v.images == [] ==> r.None?
    ensures v.images != [] && Loads(probe) ==> r == Some(v.images[v.index])
    ensures v.images != [] && !Loads(probe) ==> r == shown
  {
    if v.images == [] then None else if Loads(probe) then Some(v.images[v.index]) else shown
  }

  class Session {
    /** `window.fullDirectoryListing`, `images` and `currentIndex`. */
    var listing: Option<seq<Path>>
    var images: seq<Path>
    var currentIndex: nat
    var currentDirectory: Option<Path>
    /** The image and video format toggles and checkboxes. */
    var imageGroup: FormatGroup
    var videoGroup: FormatGroup
    var includeSubfolders: bool
    var undoStack: seq<UndoEntry>
    var operationQueue: seq<Task>
    var isOperationInProgress: bool
    var isMediaUpdateInProgress: bool
    var isRefreshInProgress: bool
    /** The file last handed to the image or video element, if any (see `ShownAfter`). */
    var shown: Option<Path>
    /** Every task ever queued, and every task ever started, in order. */
    ghost var enqueued: seq<Task>
    ghost var started: seq<Task>
    /** The video element and `videoStartSettings`. */
    const player: Player
    /** `a.localeCompare(b) < 0` under the user's collation. */
    const localeLess: (Path, Path) -> bool

    function CurrentView(): View
      reads this`listing, this`images, this`currentIndex
    {
      View(listing, images, currentIndex)
    }

    /** `getEnabledFormats()` for the current toggles and checkboxes. */
    function ActiveFormats(): seq<string>
      reads this`imageGroup, this`videoGroup
    {
      EnabledFormats(imageGroup, videoGroup)
    }

    /** Between handlers: the file list is consistent and no media update or
        refresh is half done. */
    ghost predicate Valid()
      reads this`listing, this`images, this`currentIndex, this`isMediaUpdateInProgress, this`isRefreshInProgress
    {
      Consistent(CurrentView()) && !isMediaUpdateInProgress && !isRefreshInProgress
    }

    /** Tasks start in the order they were queued. */
    ghost predicate QueueOrdered()
      reads this`enqueued, this`started, this`operationQueue
    {
      enqueued == started + operationQueue
    }

    /** What `updateMedia()` leaves on screen when it starts from the view `v`, with
        `before` the file last handed to an element and `starts` the queued
        metadata listeners: the file `ShownAfter` names, a paused player that is
        not skimming, the current file as its source when it loads and is a video
        (and no source otherwise), and for that video one more listener, which
        only seeks. */
    ghost predicate Displays(v: View, probe: MediaProbe, before: Option<Path>, starts: seq<bool>)
      requires IndexInRange(v.images, v.index)
      reads this`shown, player`paused, player`src, player`skimActive, player`pendingStarts
    {
      && shown == ShownAfter(v, probe, before)
      && player.paused && !player.skimActive
      && player.src == (match LoadedVideo(v, probe) case Some(f) => f case None => "")
      && player.pendingStarts == starts + (if LoadedVideo(v, probe).Some? then [false] else [])
    }

    /** `stopCurrentMedia()` ran and nothing was handed to an element since: the
        player is paused, without a source and not skimming, and no metadata
        listener was added to `starts`. */
    ghost predicate Stopped(before: Option<Path>, starts: seq<bool>)
      reads this`shown, player`paused, player`src, player`skimActive, player`pendingStarts
    {
      shown == before && player.paused && player.src == "" && !player.skimActive && player.pendingStarts == starts
    }

    /** The display after an undo brings back `p`, which passes the filter, and the
        view `v` is updated: as `Displays` for an image; for a video the source is
        set to `p` once more, with a second listener that also plays it. */
    ghost predicate RestoredDisplays(v: View, p: Path, probe: MediaProbe, before: Option<Path>, starts: seq<bool>)
      requires IndexInRange(v.images, v.index)
      reads this`shown, player`paused, player`src, player`skimActive, player`pendingStarts
    {
      if IsVideo(p) then
        && shown == ShownAfter(v, probe, before)
        && player.paused && !player.skimActive
        && player.src == p
        && player.pendingStarts == starts + (if LoadedVideo(v, probe).Some? then [false] else []) + [true]
      else Displays(v, probe, before, starts)
    }

    /** What the delete task leaves, from the view `v`, the undo stack `undo` and the
        display (`before`, `starts`) it began with, given `deleteImage`'s answer:
        nothing for an empty view; stopped media after a failed delete; after a
        success, the undo entry pushed, the file spliced out of the view and the
        media updated. */
    ghost predicate DeleteTaskDone(v: View, undo: seq<UndoEntry>, before: Option<Path>, starts: seq<bool>, reply: Option<Path>, probe: MediaProbe)
      requires Consistent(v)
      reads this`listing, this`images, this`currentIndex, this`undoStack, this`shown, player`paused, player`src, player`skimActive, player`pendingStarts
    {
      if v.images == [] then CurrentView() == v && undoStack == undo && shown == before
      else if reply.None? then CurrentView() == v && undoStack == undo && Stopped(before, starts)
      else
        && undoStack == undo + [DeleteEntry(v.images[v.index], reply.value)]
        && CurrentView() == AfterUpdate(RemoveCurrent(v), probe)
        && Displays(RemoveCurrent(v), probe, before, starts)
    }

    /** A failed undo, from the view `v`, the undo stack `undo`, the open directory
        `dir` and the enabled formats it began with: the entry is back on the stack,
        the directory is re-read when one is open and the scan resolves (a rejected
        scan keeps the view), and the media stays stopped. */
    ghost predicate UndoFailed(v: View, undo: seq<UndoEntry>, dir: Option<Path>, formats: seq<string>,
                               before: Option<Path>, starts: seq<bool>, rescan: Option<seq<Path>>)
      reads this`listing, this`images, this`currentIndex, this`undoStack, this`shown, player`paused, player`src, player`skimActive, player`pendingStarts
    {
      && undoStack == undo
      && CurrentView() == (if dir.Some? && rescan.Some? then Refreshed(v, rescan.value, formats) else v)
      && Stopped(before, starts)
    }

    /** A successful undo of `p` from the view `v`: the path is restored into the
        listing and, when it passes the filter, into the view, which is updated and
        shown; otherwise the media stays stopped. */
    ghost predicate RestoreShown(v: View, p: Path, formats: seq<string>, before: Option<Path>, starts: seq<bool>, probe: MediaProbe)
      requires v.listing.Some?
      reads this`listing, this`images, this`currentIndex, this`shown, player`paused, player`src, player`skimActive, player`pendingStarts
    {
      if MatchesFormats(p, formats) then
        && CurrentView() == AfterUpdate(Restored(v, p, formats, localeLess), probe)
        && RestoredDisplays(Restored(v, p, formats, localeLess), p, probe, before, starts)
      else
        CurrentView() == Restored(v, p, formats, localeLess) && Stopped(before, starts)
    }

    /** What the undo task leaves, from the view `v`, the undo stack `undo`, the open
        directory `dir`, the enabled formats and the display it began with, given the
        gateway call it made and what that call and the fallback rescan answer:
        nothing for an empty stack; otherwise the last entry's call is made, and the
        undo fails (the call fails, the restored file is missing or there is no
        listing) or pops the entry and restores its path. */
    ghost predicate UndoTaskDone(v: View, undo: seq<UndoEntry>, dir: Option<Path>, formats: seq<string>,
                                 before: Option<Path>, starts: seq<bool>,
                                 call: GatewayCall, outcome: UndoOutcome, rescan: Option<seq<Path>>, probe: MediaProbe)
      requires Consistent(v)
      reads this`listing, this`images, this`currentIndex, this`undoStack, this`shown, player`paused, player`src, player`skimActive, player`pendingStarts
    {
      if undo == [] then call == NoCall && CurrentView() == v && undoStack == undo && shown == before
      else
        var entry := undo[|undo| - 1];
        && call == UndoCall(entry)
        && if !outcome.succeeded || !outcome.restoredExists || v.listing.None? then
             UndoFailed(v, undo, dir, formats, before, starts, rescan)
           else
             undoStack == undo[..|undo| - 1] && RestoreShown(v, RestoredPath(entry), formats, before, starts, probe)
    }

    /** The renderer at start-up, with the format boxes as the page sets them. */
    constructor(imageFormats: FormatGroup, videoFormats: FormatGroup, less: (Path, Path) -> bool)
      ensures Valid() && QueueOrdered() && player.Valid() && fresh(player)
      ensures listing.None? && images == [] && currentIndex == 0 && currentDirectory.None?
      ensures undoStack == [] && operationQueue == [] && !isOperationInProgress && shown.None?
      ensures imageGroup == imageFormats && videoGroup == videoFormats && !includeSubfolders
      ensures localeLess == less
    {
      listing := None;
      images := [];
      currentIndex := 0;
      currentDirectory := None;
      imageGroup := imageFormats;
      videoGroup := videoFormats;
      includeSubfolders := false;
      undoStack := [];
      operationQueue := [];
      isOperationInProgress := false;
      isMediaUpdateInProgress := false;
      isRefreshInProgress := false;
      shown := None;
      enqueued := [];
      started := [];
      player := new Player();
      localeLess := less;
    }

    // ------------------------------------------------------------ display

    /** `updateMedia()`. A call made while another is in progress returns at the
        guard; otherwise the current file is loaded, or, when it is missing or
        its metadata fails, removed from the view and the listing. */
    method UpdateMedia(probe: MediaProbe)
      requires IndexInRange(images, currentIndex)
      modifies this`listing, this`images, this`currentIndex, this`isMediaUpdateInProgress, this`shown, player`paused, player`src, player`skimActive, player`pendingStarts, player`duration, player`currentTime, player`playbackRate
      decreases if isMediaUpdateInProgress then 0 else 3
      ensures isMediaUpdateInProgress == old(isMediaUpdateInProgress) && isRefreshInProgress == old(isRefreshInProgress)
      ensures currentDirectory == old(currentDirectory)
      ensures Consistent(old(CurrentView())) ==> Consistent(CurrentView())
      ensures old(isMediaUpdateInProgress) ==> unchanged(this) && unchanged(player)
      ensures !old(isMediaUpdateInProgress) ==> CurrentView() == AfterUpdate(old(CurrentView()), probe)
      ensures !old(isMediaUpdateInProgress) ==> Displays(old(CurrentView()), probe, old(shown), old(player.pendingStarts))
    {
      if isMediaUpdateInProgress {
        return;
      }
      isMediaUpdateInProgress := true;
      ShowCurrent(probe);
      isMediaUpdateInProgress := false;
    }

    /** The body of `updateMedia()` inside its guard. */
    method ShowCurrent(probe: MediaProbe)
      requires isMediaUpdateInProgress && IndexInRange(images, currentIndex)
      modifies this`listing, this`images, this`currentIndex, this`isMediaUpdateInProgress, this`shown, player`paused, player`src, player`skimActive, player`pendingStarts, player`duration, player`currentTime, player`playbackRate
      decreases 2
      ensures isMediaUpdateInProgress && currentDirectory == old(currentDirectory)
      ensures CurrentView() == AfterUpdate(old(CurrentView()), probe)
      ensures Consistent(old(CurrentView())) ==> Consistent(CurrentView())
      ensures Displays(old(CurrentView()), probe, old(shown), old(player.pendingStarts))
    {
      player.Stop();
      if images == [] {
        shown := None;
        return;
      }
      var currentFile := images[currentIndex];
      var ok := probe.fileExists;
      if ok {
        var fetched, _ := FetchMetadataWithRetry(probe.failedAttempts);
        ok := fetched && probe.hasSize;
      }
      if ok {
        shown := Some(currentFile);
        if IsVideo(currentFile) {
          player.Load(currentFile, false);
        }
      } else {
        DropMissing(currentFile, probe);
      }
    }

    /** The `catch` of `updateMedia()`: the file is cleaned up as missing and,
        when files remain, the cursor is clamped and `updateMedia()` called again,
        which returns at the guard that is still held. */
    method DropMissing(f: Path, probe: MediaProbe)
      requires isMediaUpdateInProgress
      modifies this`listing, this`images, this`currentIndex, this`isMediaUpdateInProgress, this`shown, player`paused, player`src, player`skimActive, player`pendingStarts, player`duration, player`currentTime, player`playbackRate
      decreases 1
      ensures isMediaUpdateInProgress && currentDirectory == old(currentDirectory)
      ensures shown == old(shown)
      ensures unchanged(player)
      ensures CurrentView() == RemoveMissing(old(CurrentView()), f)
    {
      CleanupMissingFile(f);
      assert isMediaUpdateInProgress && shown == old(shown);
      ghost var cleaned := CurrentView();
      if images != [] {
        currentIndex := Clamp(currentIndex, |images|);
        assert CurrentView() == cleaned;
        UpdateMedia(probe);
      }
    }

    /** `cleanupMissingFile(f)`. */
    method CleanupMissingFile(f: Path)
      modifies this`listing, this`images, this`currentIndex
      ensures CurrentView() == RemoveMissing(old(CurrentView()), f)
    {
      var after := RemoveMissing(CurrentView(), f);
      listing := after.listing;
      images := after.images;
      currentIndex := after.index;
    }

    // ------------------------------------------------------------ navigation

    /** ArrowRight: step to the next file unless at the last; never wraps. */
    method Next(probe: MediaProbe)
      requires Valid()
      modifies this`listing, this`images, this`currentIndex, this`isMediaUpdateInProgress, this`shown, player`paused, player`src, player`skimActive, player`pendingStarts, player`duration, player`currentTime, player`playbackRate
      ensures Valid()
      ensures old(currentIndex) + 1 >= |old(images)| ==> CurrentView() == old(CurrentView())
      ensures old(currentIndex) + 1 >= |old(images)| ==> shown == old(shown) && unchanged(player)
      ensures old(currentIndex) + 1 < |old(images)| ==>
        CurrentView() == AfterUpdate(old(CurrentView()).(index := old(currentIndex) + 1), probe)
      ensures old(currentIndex) + 1 < |old(images)| ==>
        Displays(old(CurrentView()).(index := old(currentIndex) + 1), probe, old(shown), old(player.pendingStarts))
    {
      if currentIndex + 1 < |images| {
        ghost var v := CurrentView().(index := currentIndex + 1);
        MoveCursorKeepsConsistent(CurrentView(), currentIndex + 1);
        currentIndex := currentIndex + 1;
        assert CurrentView() == v;
        UpdateMedia(probe);
      }
    }

    /** ArrowLeft: step to the previous file unless at the first; never wraps. */
    method Previous(probe: MediaProbe)
      requires Valid()
      modifies this`listing, this`images, this`currentIndex, this`isMediaUpdateInProgress, this`shown, player`paused, player`src, player`skimActive, player`pendingStarts, player`duration, player`currentTime, player`playbackRate
      ensures Valid()
      ensures old(currentIndex) == 0 ==> CurrentView() == old(CurrentView())
      ensures old(currentIndex) == 0 ==> shown == old(shown) && unchanged(player)
      ensures old(currentIndex) > 0 ==>
        CurrentView() == AfterUpdate(old(CurrentView()).(index := old(currentIndex) - 1), probe)
      ensures old(currentIndex) > 0 ==>
        Displays(old(CurrentView()).(index := old(currentIndex) - 1), probe, old(shown), old(player.pendingStarts))
    {
      if currentIndex > 0 {
        ghost var v := CurrentView().(index := currentIndex - 1);
        MoveCursorKeepsConsistent(CurrentView(), currentIndex - 1);
        currentIndex := currentIndex - 1;
        assert CurrentView() == v;
        UpdateMedia(probe);
      }
    }

    // ------------------------------------------------------------ filtering and loading

    /** `filterFiles()`: refilter the listing, clamp the cursor and update the
        display; nothing happens before a directory is loaded. */
    method ApplyFilter(probe: MediaProbe)
      requires IndexInRange(images, currentIndex) && !isMediaUpdateInProgress && !isRefreshInProgress
      modifies this`listing, this`images, this`currentIndex, this`isMediaUpdateInProgress, this`shown, player`paused, player`src, player`skimActive, player`pendingStarts, player`duration, player`currentTime, player`playbackRate
      ensures old(listing).Some? ==> Valid()
      ensures currentDirectory == old(currentDirectory)
      ensures old(listing).None? ==> unchanged(this) && unchanged(player)
      ensures old(listing).Some? ==> CurrentView() == AfterUpdate(Refilter(old(CurrentView()), old(ActiveFormats())), probe)
      ensures old(listing).Some? ==> Displays(Refilter(old(CurrentView()), old(ActiveFormats())), probe, old(shown), old(player.pendingStarts))
    {
      if listing.Some? {
        var v := Refilter(CurrentView(), ActiveFormats());
        images, currentIndex := v.images, v.index;
        assert CurrentView() == v && Consistent(v);
        UpdateMedia(probe);
      }
    }

    /** A change of a format toggle or checkbox: the new boxes apply and the
        listing is refiltered. */
    method SetFormats(imageFormats: FormatGroup, videoFormats: FormatGroup, probe: MediaProbe)
      requires Valid()
      modifies this`listing, this`images, this`currentIndex, this`isMediaUpdateInProgress, this`shown, player`paused, player`src, player`skimActive, player`pendingStarts, player`duration, player`currentTime, player`playbackRate, this`imageGroup, this`videoGroup
      ensures Valid() && imageGroup == imageFormats && videoGroup == videoFormats
      ensures old(listing).None? ==> CurrentView() == old(CurrentView()) && shown == old(shown) && unchanged(player)
      ensures old(listing).Some? ==> CurrentView() == AfterUpdate(Refilter(old(CurrentView()), EnabledFormats(imageFormats, videoFormats)), probe)
      ensures old(listing).Some? ==>
        Displays(Refilter(old(CurrentView()), EnabledFormats(imageFormats, videoFormats)), probe, old(shown), old(player.pendingStarts))
    {
      imageGroup := imageFormats;
      videoGroup := videoFormats;
      ApplyFilter(probe);
    }

    /** `loadDirectory()`, with the chosen directory (if the dialog was not
        cancelled) and what scanning it returns (`None` when the scan rejects). */
    method LoadDirectory(selected: Option<Path>, scan: Option<seq<Path>>, probe: MediaProbe)
      requires Valid()
      modifies this`listing, this`images, this`currentIndex, this`isMediaUpdateInProgress, this`shown, player`paused, player`src, player`skimActive, player`pendingStarts, player`duration, player`currentTime, player`playbackRate, this`currentDirectory
      ensures Valid()
      ensures selected.None? ==> currentDirectory == old(currentDirectory)
      ensures selected.Some? ==> currentDirectory == selected
      ensures selected.None? || scan.None? ==> CurrentView() == old(CurrentView()) && Stopped(old(shown), old(player.pendingStarts))
      ensures selected.Some? && scan.Some? ==>
        CurrentView() == AfterUpdate(Refilter(View(scan, [], 0), old(ActiveFormats())), probe)
      ensures selected.Some? && scan.Some? ==>
        Displays(Refilter(View(scan, [], 0), old(ActiveFormats())), probe, old(shown), old(player.pendingStarts))
    {
      player.Stop();
      if selected.Some? {
        OpenDirectory(selected.value, scan, probe);
      }
    }

    /** The rest of `loadDirectory()` once a directory is chosen: it becomes the
        open directory; when the scan resolves, the scan becomes the listing and
        the view is filtered from the start of the new listing, and when it
        rejects nothing else changes. */
    method OpenDirectory(dir: Path, scan: Option<seq<Path>>, probe: MediaProbe)
      requires Valid()
      modifies this`listing, this`images, this`currentIndex, this`isMediaUpdateInProgress, this`shown, player`paused, player`src, player`skimActive, player`pendingStarts, player`duration, player`currentTime, player`playbackRate, this`currentDirectory
      ensures Valid() && currentDirectory == Some(dir)
      ensures scan.None? ==> CurrentView() == old(CurrentView()) && shown == old(shown) && unchanged(player)
      ensures scan.Some? ==> CurrentView() == AfterUpdate(Refilter(View(scan, [], 0), old(ActiveFormats())), probe)
      ensures scan.Some? ==> Displays(Refilter(View(scan, [], 0), old(ActiveFormats())), probe, old(shown), old(player.pendingStarts))
    {
      currentDirectory := Some(dir);
      if scan.None? {
        return;
      }
      listing, images, currentIndex := scan, [], 0;
      ghost var before, starts, formats := shown, player.pendingStarts, ActiveFormats();
      assert CurrentView() == View(scan, [], 0);
      assert before == old(shown) && starts == old(player.pendingStarts) && formats == old(ActiveFormats());
      ApplyFilter(probe);
      assert CurrentView() == AfterUpdate(Refilter(View(scan, [], 0), formats), probe);
    }

    /** The "include subfolders" checkbox, with what re-scanning the open
        directory returns (`None` when the scan rejects): the new listing is
        refiltered from the old cursor; a rejected scan changes only the setting. */
    method SetIncludeSubfolders(checked: bool, scan: Option<seq<Path>>, probe: MediaProbe)
      requires Valid()
      modifies this`listing, this`images, this`currentIndex, this`isMediaUpdateInProgress, this`shown, player`paused, player`src, player`skimActive, player`pendingStarts, player`duration, player`currentTime, player`playbackRate, this`includeSubfolders
      ensures Valid() && includeSubfolders == checked
      ensures old(currentDirectory).None? || scan.None? ==>
        CurrentView() == old(CurrentView()) && shown == old(shown) && unchanged(player)
      ensures old(currentDirectory).Some? && scan.Some? ==>
        CurrentView() == AfterUpdate(Refilter(View(scan, old(images), old(currentIndex)), old(ActiveFormats())), probe)
      ensures old(currentDirectory).Some? && scan.Some? ==>
        Displays(Refilter(View(scan, old(images), old(currentIndex)), old(ActiveFormats())), probe, old(shown), old(player.pendingStarts))
    {
      includeSubfolders := checked;
      if currentDirectory.Some? && scan.Some? {
        Rescan(scan.value, probe);
      }
    }

    /** The listener's re-scan once it resolves: the scan replaces the listing and
        the view is refiltered from the old cursor. */
    method Rescan(scan: seq<Path>, probe: MediaProbe)
      requires Valid()
      modifies this`listing, this`images, this`currentIndex, this`isMediaUpdateInProgress, this`shown, player`paused, player`src, player`skimActive, player`pendingStarts, player`duration, player`currentTime, player`playbackRate
      ensures Valid() && currentDirectory == old(currentDirectory)
      ensures CurrentView() == AfterUpdate(Refilter(View(Some(scan), old(images), old(currentIndex)), old(ActiveFormats())), probe)
      ensures Displays(Refilter(View(Some(scan), old(images), old(currentIndex)), old(ActiveFormats())), probe, old(shown), old(player.pendingStarts))
    {
      listing := Some(scan);
      assert CurrentView() == View(Some(scan), old(images), old(currentIndex));
      ApplyFilter(probe);
    }

    /** `refreshDirectoryListing()`, with what re-scanning returns (`None` when the
        scan rejects, which the function catches): nothing happens without a
        directory or while a refresh is running, and a rejected scan only sets
        and clears the flag. */
    method RefreshDirectoryListing(rescan: Option<seq<Path>>)
      modifies this`listing, this`images, this`currentIndex, this`isRefreshInProgress
      ensures old(currentDirectory).None? || old(isRefreshInProgress) ==> unchanged(this)
      ensures old(currentDirectory).Some? && !old(isRefreshInProgress) ==> !isRefreshInProgress
      ensures old(currentDirectory).Some? && !old(isRefreshInProgress) ==>
        CurrentView() == (if rescan.Some? then Refreshed(old(CurrentView()), rescan.value, old(ActiveFormats())) else old(CurrentView()))
    {
      if currentDirectory.None? || isRefreshInProgress {
        return;
      }
      isRefreshInProgress := true;
      if rescan.Some? {
        var v := Refreshed(CurrentView(), rescan.value, ActiveFormats());
        listing := v.listing;
        images := v.images;
        currentIndex := v.index;
      }
      isRefreshInProgress := false;
    }

    // ------------------------------------------------------------ the operation queue

    /** `processNextOperation()` up to its `await`: unless a task is running or none
        is waiting, the oldest waiting task starts; `RunOperation` runs it and
        `FinishOperation` ends it. */
    method ProcessNextOperation() returns (task: Option<Task>)
      requires QueueOrdered()
      modifies this`operationQueue, this`isOperationInProgress, this`started
      ensures old(isOperationInProgress) || old(operationQueue) == [] ==> task.None? && unchanged(this)
      ensures !old(isOperationInProgress) && old(operationQueue) != [] ==>
        task == Some(old(operationQueue)[0]) && operationQueue == old(operationQueue)[1..]
        && isOperationInProgress && started == old(started) + [task.value]
      ensures enqueued == old(enqueued) && QueueOrdered()
    {
      if isOperationInProgress || operationQueue == [] {
        return None;
      }
      isOperationInProgress := true;
      task := Some(operationQueue[0]);
      operationQueue := operationQueue[1..];
      started := started + [task.value];
    }

    /** The `finally` of `processNextOperation()`: whatever the operation did, the flag
        clears, and another drain is scheduled when tasks are waiting. */
    method FinishOperation() returns (more: bool)
      modifies this`isOperationInProgress
      ensures !isOperationInProgress && (more <==> operationQueue != [])
      ensures operationQueue == old(operationQueue) && enqueued == old(enqueued) && started == old(started)
    {
      isOperationInProgress := false;
      more := operationQueue != [];
    }

    /** The `await` of `processNextOperation()`: the started task runs with what its
        external calls answer (`reply` for a delete; `outcome` and `rescan` for an
        undo), and the flag stays set until `FinishOperation`. */
    method RunOperation(task: Task, reply: Option<Path>, outcome: UndoOutcome, rescan: Option<seq<Path>>, probe: MediaProbe)
      returns (call: GatewayCall)
      requires Valid() && QueueOrdered() && isOperationInProgress
      requires started != [] && task == started[|started| - 1]
      modifies this`listing, this`images, this`currentIndex, this`isMediaUpdateInProgress, this`shown, player`paused, player`src, player`skimActive, player`pendingStarts, player`duration, player`currentTime, player`playbackRate, this`undoStack, this`isRefreshInProgress
      ensures Valid() && isOperationInProgress
      ensures QueueOrdered() && started == old(started) && operationQueue == old(operationQueue)
      ensures task == DeleteTask ==>
        call == NoCall && DeleteTaskDone(old(CurrentView()), old(undoStack), old(shown), old(player.pendingStarts), reply, probe)
      ensures task == UndoTask ==>
        UndoTaskDone(old(CurrentView()), old(undoStack), old(currentDirectory), old(ActiveFormats()),
                     old(shown), old(player.pendingStarts), call, outcome, rescan, probe)
      ensures (task == DeleteTask && old(images) == []) || (task == UndoTask && old(undoStack) == []) ==> unchanged(player)
    {
      if task == DeleteTask {
        RunDeleteTask(reply, probe);
        call := NoCall;
      } else {
        call := RunUndoTask(outcome, rescan, probe);
      }
    }

    /** Queue `task` and try to start the oldest waiting task. */
    method Enqueue(task: Task) returns (begun: Option<Task>)
      requires QueueOrdered()
      modifies this`operationQueue, this`isOperationInProgress, this`started, this`enqueued
      ensures enqueued == old(enqueued) + [task] && QueueOrdered()
      ensures old(isOperationInProgress) ==> begun.None? && operationQueue == old(operationQueue) + [task] && started == old(started)
      ensures !old(isOperationInProgress) ==>
        begun == Some((old(operationQueue) + [task])[0]) && isOperationInProgress && started == old(started) + [begun.value]
    {
      operationQueue := operationQueue + [task];
      enqueued := enqueued + [task];
      begun := ProcessNextOperation();
    }

    /** ArrowUp: `deleteCurrentImage()` queues a delete task. */
    method DeleteCurrentImage() returns (begun: Option<Task>)
      requires QueueOrdered()
      modifies this`operationQueue, this`isOperationInProgress, this`started, this`enqueued
      ensures QueueOrdered() && enqueued == old(enqueued) + [DeleteTask]
    {
      begun := Enqueue(DeleteTask);
    }

    /** ArrowDown or Ctrl+Z: `handleUndo()` queues an undo task. */
    method HandleUndo() returns (begun: Option<Task>)
      requires QueueOrdered()
      modifies this`operationQueue, this`isOperationInProgress, this`started, this`enqueued
      ensures QueueOrdered() && enqueued == old(enqueued) + [UndoTask]
    {
      begun := Enqueue(UndoTask);
    }

    // ------------------------------------------------------------ removing the current file

    /** Splice the current file out of the view, clamp the cursor and update the
        display: what a successful delete or move does after its call. */
    method RemoveCurrentAndUpdate(probe: MediaProbe)
      requires Valid() && images != []
      modifies this`listing, this`images, this`currentIndex, this`isMediaUpdateInProgress, this`shown, player`paused, player`src, player`skimActive, player`pendingStarts, player`duration, player`currentTime, player`playbackRate
      ensures Valid()
      ensures CurrentView() == AfterUpdate(RemoveCurrent(old(CurrentView())), probe)
      ensures Displays(RemoveCurrent(old(CurrentView())), probe, old(shown), old(player.pendingStarts))
    {
      var v := RemoveCurrent(CurrentView());
      images, currentIndex := v.images, v.index;
      ghost var before, starts := shown, player.pendingStarts;
      assert CurrentView() == v && before == old(shown);
      UpdateMedia(probe);
      assert shown == ShownAfter(v, probe, before);
    }

    /** The delete task, with `deleteImage`'s answer (the quarantine path on
        success): only a successful delete pushes an undo entry and removes the
        file from the view. */
    method RunDeleteTask(reply: Option<Path>, probe: MediaProbe)
      requires Valid() && isOperationInProgress
      modifies this`listing, this`images, this`currentIndex, this`isMediaUpdateInProgress, this`shown, player`paused, player`src, player`skimActive, player`pendingStarts, player`duration, player`currentTime, player`playbackRate, this`undoStack
      ensures Valid()
      ensures old(images) == [] ==> unchanged(this) && unchanged(player)
      ensures DeleteTaskDone(old(CurrentView()), old(undoStack), old(shown), old(player.pendingStarts), reply, probe)
    {
      if images == [] {
        return;
      }
      var currentFile := images[currentIndex];
      player.Stop();
      if reply.Some? {
        undoStack := undoStack + [DeleteEntry(currentFile, reply.value)];
        RemoveCurrentAndUpdate(probe);
      }
    }

    /** `moveToQuickFolder(folder)`, with `moveFile`'s answer (the new path on
        success): a successful move pushes an undo entry and removes the file. */
    method MoveToQuickFolder(folder: Path, reply: Option<Path>, probe: MediaProbe)
      requires Valid()
      modifies this`listing, this`images, this`currentIndex, this`isMediaUpdateInProgress, this`shown, player`paused, player`src, player`skimActive, player`pendingStarts, player`duration, player`currentTime, player`playbackRate, this`undoStack
      ensures Valid()
      ensures old(images) == [] ==> unchanged(this) && unchanged(player)
      ensures old(images) != [] && reply.None? ==> CurrentView() == old(CurrentView())
      ensures old(images) != [] && reply.None? ==> undoStack == old(undoStack)
      ensures old(images) != [] && reply.None? ==> Stopped(old(shown), old(player.pendingStarts))
      ensures old(images) != [] && reply.Some? ==>
        undoStack == old(undoStack) + [MoveEntry(old(images)[old(currentIndex)], reply.value)]
      ensures old(images) != [] && reply.Some? ==>
        CurrentView() == AfterUpdate(RemoveCurrent(old(CurrentView())), probe)
      ensures old(images) != [] && reply.Some? ==>
        Displays(RemoveCurrent(old(CurrentView())), probe, old(shown), old(player.pendingStarts))
    {
      if images == [] {
        return;
      }
      var currentFile := images[currentIndex];
      player.Stop();
      if reply.Some? {
        undoStack := undoStack + [MoveEntry(currentFile, reply.value)];
        RemoveCurrentAndUpdate(probe);
      }
    }

    /** `moveCurrentFile()` (the `m` key), with the folder picker's answer and
        whether `moveFile` succeeded: the file leaves the view, and no undo entry
        is pushed. */
    method MoveCurrentFile(selected: Option<string>, moved: bool, probe: MediaProbe)
      requires Valid()
      modifies this`listing, this`images, this`currentIndex, this`isMediaUpdateInProgress, this`shown, player`paused, player`src, player`skimActive, player`pendingStarts, player`duration, player`currentTime, player`playbackRate
      ensures Valid() && undoStack == old(undoStack)
      ensures old(images) == [] ==> unchanged(this) && unchanged(player)
      ensures old(images) != [] && (selected.None? || selected.value == [] || !moved) ==> CurrentView() == old(CurrentView())
      ensures old(images) != [] && (selected.None? || selected.value == [] || !moved) ==> Stopped(old(shown), old(player.pendingStarts))
      ensures old(images) != [] && selected.Some? && selected.value != [] && moved ==>
        CurrentView() == AfterUpdate(RemoveCurrent(old(CurrentView())), probe)
      ensures old(images) != [] && selected.Some? && selected.value != [] && moved ==>
        Displays(RemoveCurrent(old(CurrentView())), probe, old(shown), old(player.pendingStarts))
    {
      if images == [] {
        return;
      }
      player.Stop();
      if selected.None? || selected.value == [] {
        return;
      }
      if moved {
        RemoveCurrentAndUpdate(probe);
      }
    }

    // ------------------------------------------------------------ undo

    /** The undo task, with what its external calls answer and what a fallback
        refresh would scan. The most recent entry is popped and its call made; on
        failure (the call fails, the restored file is missing, or there is no
        listing to add it to) the entry goes back and the directory is re-read;
        on success the path joins the listing and, when it passes the filter, the
        view at its sorted position, and becomes current. */
    method RunUndoTask(outcome: UndoOutcome, rescan: Option<seq<Path>>, probe: MediaProbe) returns (call: GatewayCall)
      requires Valid() && isOperationInProgress
      modifies this`listing, this`images, this`currentIndex, this`isMediaUpdateInProgress, this`shown, player`paused, player`src, player`skimActive, player`pendingStarts, player`duration, player`currentTime, player`playbackRate, this`undoStack, this`isRefreshInProgress
      ensures Valid()
      ensures old(undoStack) == [] ==> unchanged(this) && unchanged(player)
      ensures UndoTaskDone(old(CurrentView()), old(undoStack), old(currentDirectory), old(ActiveFormats()),
                           old(shown), old(player.pendingStarts), call, outcome, rescan, probe)
    {
      if undoStack == [] {
        return NoCall;
      }
      var entry := undoStack[|undoStack| - 1];
      undoStack := undoStack[..|undoStack| - 1];
      ghost var v, undo, dir, formats := CurrentView(), old(undoStack), currentDirectory, ActiveFormats();
      ghost var before, starts := shown, player.pendingStarts;
      assert v == old(CurrentView()) && dir == old(currentDirectory) && formats == old(ActiveFormats());
      assert before == old(shown) && starts == old(player.pendingStarts) && Consistent(v);
      assert v.listing == listing;
      call := UndoCall(entry);
      assert undo != [] && entry == undo[|undo| - 1];
      if !outcome.succeeded || !outcome.restoredExists || listing.None? {
        assert !outcome.succeeded || !outcome.restoredExists || v.listing.None?;
        KeepUndoEntry(entry, rescan);
        assert UndoFailed(v, undo, dir, formats, before, starts, rescan);
        return;
      }
      assert outcome.succeeded && outcome.restoredExists && v.listing.Some?;
      FinishRestore(RestoredPath(entry), probe);
      assert RestoreShown(v, RestoredPath(entry), formats, before, starts, probe);
    }

    /** The failure path of the undo task: the media is stopped (before the
        external calls), the entry goes back on the stack and the directory is
        re-read. */
    method KeepUndoEntry(entry: UndoEntry, rescan: Option<seq<Path>>)
      requires Valid()
      modifies this`listing, this`images, this`currentIndex, this`undoStack, this`isRefreshInProgress, player`paused, player`src, player`skimActive, player`duration, player`currentTime, player`playbackRate
      ensures Valid()
      ensures UndoFailed(old(CurrentView()), old(undoStack) + [entry], old(currentDirectory), old(ActiveFormats()), old(shown), old(player.pendingStarts), rescan)
    {
      player.Stop();
      undoStack := undoStack + [entry];
      RefreshDirectoryListing(rescan);
    }

    /** The success path of the undo task: the media is stopped (before the
        external calls) and the restored path is shown. */
    method FinishRestore(p: Path, probe: MediaProbe)
      requires Valid() && listing.Some?
      modifies this`listing, this`images, this`currentIndex, this`isMediaUpdateInProgress, this`shown, player`paused, player`src, player`skimActive, player`pendingStarts, player`duration, player`currentTime, player`playbackRate
      ensures Valid()
      ensures RestoreShown(old(CurrentView()), p, old(ActiveFormats()), old(shown), old(player.pendingStarts), probe)
    {
      player.Stop();
      ShowRestored(p, probe);
    }

    /** The success path of the undo task: the restored file joins the listing
        and, when it passes the filter, the view, becomes current and is shown;
        a restored video is loaded again with a listener that also plays it. */
    method ShowRestored(p: Path, probe: MediaProbe)
      requires Valid() && listing.Some?
      modifies this`listing, this`images, this`currentIndex, this`isMediaUpdateInProgress, this`shown, player`paused, player`src, player`skimActive, player`pendingStarts, player`duration, player`currentTime, player`playbackRate
      ensures Valid()
      ensures MatchesFormats(p, old(ActiveFormats())) ==>
        CurrentView() == AfterUpdate(Restored(old(CurrentView()), p, old(ActiveFormats()), localeLess), probe)
      ensures MatchesFormats(p, old(ActiveFormats())) ==>
        RestoredDisplays(Restored(old(CurrentView()), p, old(ActiveFormats()), localeLess), p, probe, old(shown), old(player.pendingStarts))
      ensures !MatchesFormats(p, old(ActiveFormats())) ==>
        CurrentView() == Restored(old(CurrentView()), p, old(ActiveFormats()), localeLess)
      ensures !MatchesFormats(p, old(ActiveFormats())) ==> shown == old(shown) && unchanged(player)
    {
      PlaceRestored(p);
      ghost var restored, before, starts, formats := CurrentView(), shown, player.pendingStarts, ActiveFormats();
      assert before == old(shown) && starts == old(player.pendingStarts) && formats == old(ActiveFormats());
      assert restored == Restored(old(CurrentView()), p, formats, localeLess) && Consistent(restored);
      if MatchesFormats(p, ActiveFormats()) {
        RefreshRestored(p, probe);
        assert RestoredDisplays(restored, p, probe, before, starts);
      }
    }

    /** `await updateMedia()` after a restore, then, for a video, the source set
        to the restored path once more with a listener that seeks and plays. */
    method RefreshRestored(p: Path, probe: MediaProbe)
      requires Valid()
      modifies this`listing, this`images, this`currentIndex, this`isMediaUpdateInProgress, this`shown, player`paused, player`src, player`skimActive, player`pendingStarts, player`duration, player`currentTime, player`playbackRate
      ensures Valid()
      ensures CurrentView() == AfterUpdate(old(CurrentView()), probe)
      ensures RestoredDisplays(old(CurrentView()), p, probe, old(shown), old(player.pendingStarts))
    {
      UpdateMedia(probe);
      if IsVideo(p) {
        ghost var shownNow, startsNow := shown, player.pendingStarts;
        player.Load(p, true);
        assert shown == shownNow && player.pendingStarts == startsNow + [true];
      }
    }

    /** The listing and view update of the success path: the path is added to
        the listing and, when it passes the filter, inserted at the first view
        entry not less than it (or found, when already there) and made current. */
    method PlaceRestored(p: Path)
      requires Valid() && listing.Some?
      modifies this`listing, this`images, this`currentIndex
      ensures CurrentView() == Restored(old(CurrentView()), p, old(ActiveFormats()), localeLess)
      ensures Valid()
    {
      var r := Restore(CurrentView(), p, ActiveFormats(), localeLess);
      RestoredConsistent(CurrentView(), p, ActiveFormats(), localeLess);
      listing, images, currentIndex := r.listing, r.images, r.index;
      assert CurrentView() == r;
    }
  }
}
