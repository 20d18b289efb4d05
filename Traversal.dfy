/** The main process's directory scan: `getAllFiles` over a directory tree and
    the `getDirectoryContents` handler that wraps it. The tree is what
    `fs.readdir(dir, { withFileTypes: true })` would report, given as a value. */
module Traversal {
  import opened Wrappers
  import opened Paths

  /** One `readdir` entry. */
  datatype Entry =
    | File(name: string)                              // `entry.isFile()`
    | Directory(name: string, contents: Contents)     // `entry.isDirectory()`
    | Other(name: string)                             // a link, socket, FIFO or device

  /** What reading a directory gives: its entries in `readdir` order, or an error. */
  datatype Contents = Entries(entries: seq<Entry>) | ReadError

  /** `getAllFiles(dir, includeSubfolders)`: the files of `dir` in entry order, with
      each subdirectory's files spliced in at its position when subfolders are
      included. Any failed `readdir` on the way rejects the whole scan (`None`). */
  function GetAllFiles(dir: string, contents: Contents, includeSubfolders: bool): (r: Option<seq<Path>>)
    decreases contents, 1
  {
    match contents
    case ReadError => None
    case Entries(entries) => EntriesFiles(dir, entries, includeSubfolders, contents)
  }

  /** The mapped and flattened results of `entries`, in order. */
  function EntriesFiles(dir: string, entries: seq<Entry>, includeSubfolders: bool, ghost parent: Contents): (r: Option<seq<Path>>)
    requires parent.Entries? && forall e :: e in entries ==> e in parent.entries
    decreases parent, 0, |entries|
  {
    if entries == [] then Some([])
    else
      var head := EntryFiles(dir, entries[0], includeSubfolders, parent);
      var rest := EntriesFiles(dir, entries[1..], includeSubfolders, parent);
      if head.Some? && rest.Some? then Some(head.value + rest.value) else None
  }

  /** What the `entries.map` callback yields for one entry after `flat()` and
      `filter(Boolean)`: a subdirectory's files, a file's path, or nothing. */
  function EntryFiles(dir: string, e: Entry, includeSubfolders: bool, ghost parent: Contents): (r: Option<seq<Path>>)
    requires parent.Entries? && e in parent.entries
    decreases parent, 0, 0
  {
    match e
    case Directory(name, contents) =>
      if includeSubfolders then GetAllFiles(Join(dir, name), contents, includeSubfolders) else Some([])
    case File(name) => Some([Join(dir, name)])
    case Other(_) => Some([])
  }

  /** The `getDirectoryContents` handler: the scan's result, or `[]` on any error. */
  function GetDirectoryContents(dir: string, contents: Contents, includeSubfolders: bool): (files: seq<Path>)
    ensures GetAllFiles(dir, contents, includeSubfolders).None? ==> files == []
    ensures GetAllFiles(dir, contents, includeSubfolders).Some? ==> files == GetAllFiles(dir, contents, includeSubfolders).value
  {
    match GetAllFiles(dir, contents, includeSubfolders)
    case Some(files) => files
    case None => []
  }

  /** `p` is the path of a file entry of the tree under `dir`, looking into
      subdirectories only when they are included. */
  ghost predicate Reaches(dir: string, contents: Contents, includeSubfolders: bool, p: Path)
    decreases contents
  {
    contents.Entries? &&
    exists i :: 0 <= i < |contents.entries| &&
      match contents.entries[i]
      case File(name) => p == Join(dir, name)
      case Directory(name, sub) => includeSubfolders && Reaches(Join(dir, name), sub, includeSubfolders, p)
      case Other(_) => false
  }

  /** A scan lists exactly the reachable files: only file entries appear, never a
      directory or another kind of entry, and every reachable file appears. */
  lemma {:induction false} ScanListsReachableFiles(dir: string, contents: Contents, includeSubfolders: bool)
    requires GetAllFiles(dir, contents, includeSubfolders).Some?
    ensures forall p :: p in GetAllFiles(dir, contents, includeSubfolders).value <==> Reaches(dir, contents, includeSubfolders, p)
    decreases contents, 1
  {
    EntriesListReachable(dir, contents.entries, includeSubfolders, contents);
  }

  lemma {:induction false} EntriesListReachable(dir: string, entries: seq<Entry>, includeSubfolders: bool, parent: Contents)
    requires parent.Entries? && forall e :: e in entries ==> e in parent.entries
    requires EntriesFiles(dir, entries, includeSubfolders, parent).Some?
    ensures forall p :: p in EntriesFiles(dir, entries, includeSubfolders, parent).value <==>
      exists i :: 0 <= i < |entries| && EntryHolds(dir, entries[i], includeSubfolders, p)
    decreases parent, 0, |entries|
  {
    if entries != [] {
      EntryListsReachable(dir, entries[0], includeSubfolders, parent);
      EntriesListReachable(dir, entries[1..], includeSubfolders, parent);
      var r := EntriesFiles(dir, entries, includeSubfolders, parent).value;
      forall p
        ensures p in r <==> exists i :: 0 <= i < |entries| && EntryHolds(dir, entries[i], includeSubfolders, p)
      {
        if exists i :: 0 <= i < |entries| && EntryHolds(dir, entries[i], includeSubfolders, p) {
          var i :| 0 <= i < |entries| && EntryHolds(dir, entries[i], includeSubfolders, p);
          if i > 0 {
            assert entries[1..][i - 1] == entries[i];
          }
        }
        if p in r && !EntryHolds(dir, entries[0], includeSubfolders, p) {
          var i :| 0 <= i < |entries[1..]| && EntryHolds(dir, entries[1..][i], includeSubfolders, p);
          assert entries[1..][i] == entries[i + 1];
        }
      }
    }
  }

  /** `p` comes from entry `e` of the directory `dir`. */
  ghost predicate EntryHolds(dir: string, e: Entry, includeSubfolders: bool, p: Path)
  {
    match e
    case File(name) => p == Join(dir, name)
    case Directory(name, sub) => includeSubfolders && Reaches(Join(dir, name), sub, includeSubfolders, p)
    case Other(_) => false
  }

  lemma {:induction false} EntryListsReachable(dir: string, e: Entry, includeSubfolders: bool, parent: Contents)
    requires parent.Entries? && e in parent.entries
    requires EntryFiles(dir, e, includeSubfolders, parent).Some?
    ensures forall p :: p in EntryFiles(dir, e, includeSubfolders, parent).value <==> EntryHolds(dir, e, includeSubfolders, p)
    decreases parent, 0, 0
  {
    match e
    case Directory(name, sub) =>
      if includeSubfolders {
        ScanListsReachableFiles(Join(dir, name), sub, includeSubfolders);
      }
    case File(_) =>
    case Other(_) =>
  }

  /** The paths of the file entries of `entries`, in order. */
  function DirectFiles(dir: string, entries: seq<Entry>): (files: seq<Path>)
    ensures |files| <= |entries|
  {
    if entries == [] then []
    else (if entries[0].File? then [Join(dir, entries[0].name)] else []) + DirectFiles(dir, entries[1..])
  }

  /** Without subfolders a readable directory scans to exactly its own files, in
      `readdir` order. */
  lemma {:induction false} FlatScanIsDirectFiles(dir: string, entries: seq<Entry>)
    ensures GetAllFiles(dir, Entries(entries), false) == Some(DirectFiles(dir, entries))
  {
    FlatEntriesAreDirectFiles(dir, entries, Entries(entries));
  }

  lemma {:induction false} FlatEntriesAreDirectFiles(dir: string, entries: seq<Entry>, parent: Contents)
    requires parent.Entries? && forall e :: e in entries ==> e in parent.entries
    ensures EntriesFiles(dir, entries, false, parent) == Some(DirectFiles(dir, entries))
    decreases |entries|
  {
    if entries != [] {
      FlatEntriesAreDirectFiles(dir, entries[1..], parent);
    }
  }

  /** The scan of a directory whose entries come in two runs is the scan of the
      first run followed by that of the second: each entry's files stay at that
      entry's position. */
  lemma {:induction false} ScanSplices(dir: string, first: seq<Entry>, second: seq<Entry>, includeSubfolders: bool)
    ensures var all := Entries(first + second);
      var a := EntriesFiles(dir, first, includeSubfolders, all);
      var b := EntriesFiles(dir, second, includeSubfolders, all);
      GetAllFiles(dir, all, includeSubfolders) == (if a.Some? && b.Some? then Some(a.value + b.value) else None)
  {
    var all := Entries(first + second);
    SplitEntries(dir, first, second, includeSubfolders, all);
  }

  lemma {:induction false} SplitEntries(dir: string, first: seq<Entry>, second: seq<Entry>, includeSubfolders: bool, parent: Contents)
    requires parent.Entries? && forall e :: e in first + second ==> e in parent.entries
    ensures var a := EntriesFiles(dir, first, includeSubfolders, parent);
      var b := EntriesFiles(dir, second, includeSubfolders, parent);
      EntriesFiles(dir, first + second, includeSubfolders, parent) == (if a.Some? && b.Some? then Some(a.value + b.value) else None)
    decreases |first|
  {
    if first == [] {
      assert first + second == second;
      var b := EntriesFiles(dir, second, includeSubfolders, parent);
      if b.Some? {
        assert [] + b.value == b.value;
      }
    } else {
      assert (first + second)[1..] == first[1..] + second;
      SplitEntries(dir, first[1..], second, includeSubfolders, parent);
      var h := EntryFiles(dir, first[0], includeSubfolders, parent);
      var a := EntriesFiles(dir, first[1..], includeSubfolders, parent);
      var b := EntriesFiles(dir, second, includeSubfolders, parent);
      if h.Some? && a.Some? && b.Some? {
        assert h.value + (a.value + b.value) == (h.value + a.value) + b.value;
      }
    }
  }

  /** An unreadable subdirectory fails the whole scan when subfolders are
      included, so the handler answers `[]`. */
  lemma UnreadableSubfolderEmptiesScan(dir: string, before: seq<Entry>, name: string, after: seq<Entry>)
    ensures GetDirectoryContents(dir, Entries(before + [Directory(name, ReadError)] + after), true) == []
  {
    var all := Entries(before + [Directory(name, ReadError)] + after);
    var bad := [Directory(name, ReadError)];
    ScanSplices(dir, before + bad, after, true);
    SplitEntries(dir, before, bad, true, all);
    assert EntryFiles(dir, bad[0], true, all).None?;
    assert EntriesFiles(dir, bad, true, all).None?;
  }
}
