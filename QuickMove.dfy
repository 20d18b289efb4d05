/** The quick-move folder groups: named groups (tabs) of at most nine folders
    each, the current group, and adding and removing a folder of the current
    group. */
module QuickMove {
  import opened Wrappers
  import opened Paths

  /** The most folders a group holds (one per digit key 1-9). */
  const MaxFolders: nat := 9

  predicate NoDuplicates(s: seq<Path>)
  {
    forall i, j :: 0 <= i < j < |s| ==> s[i] != s[j]
  }

  /** What `addQuickMoveFolder` writes back for the folders of the current group
      when the folder picker answers `selected`: nothing (`None`) when the group is
      full, when the picker was cancelled or gave an empty path, or when the folder
      is already in the group; otherwise the group with the folder appended. */
  function AddedFolders(folders: seq<Path>, selected: Option<string>): (r: Option<seq<Path>>)
    ensures r.Some? <==> |folders| < MaxFolders && selected.Some? && selected.value != [] && selected.value !in folders
    ensures r.Some? ==> r.value == folders + [selected.value]
  {
    if |folders| >= MaxFolders then None
    else if selected.None? || selected.value == [] || selected.value in folders then None
    else Some(folders + [selected.value])
  }

  /** `folders.splice(index, 1)`: a negative index counts from the end, and an
      index past the end removes nothing. */
  function SpliceOne(folders: seq<Path>, index: int): (r: seq<Path>)
  {
    var start := SpliceStart(|folders|, index);
    if start < |folders| then RemoveSlot(folders, start) else folders
  }

  /** Where `splice(index, ..)` starts in an array of `length` elements. */
  function SpliceStart(length: nat, index: int): (start: nat)
    ensures start <= length
    ensures 0 <= index <= length ==> start == index
  {
    if index < 0 then (if length + index < 0 then 0 else length + index)
    else if index > length then length else index
  }

  function RemoveSlot(folders: seq<Path>, k: nat): (r: seq<Path>)
    requires k < |folders|
  {
    folders[..k] + folders[k + 1..]
  }

  /** Adding keeps a group within nine folders and free of duplicates, and the
      added folder becomes the last slot. */
  lemma AddKeepsGroupValid(folders: seq<Path>, selected: Option<string>)
    requires |folders| <= MaxFolders && NoDuplicates(folders)
    ensures var r := AddedFolders(folders, selected);
      r.Some? ==> |r.value| <= MaxFolders && NoDuplicates(r.value) && r.value[|r.value| - 1] == selected.value
  {
  }

  /** Removing slot `index` of a group drops exactly that folder; the later
      folders move up one slot and the earlier ones keep theirs. */
  lemma RemoveDropsSlot(folders: seq<Path>, index: int)
    requires 0 <= index < |folders|
    ensures var r := SpliceOne(folders, index);
      |r| == |folders| - 1
      && (forall i :: 0 <= i < index ==> r[i] == folders[i])
      && (forall i :: index <= i < |r| ==> r[i] == folders[i + 1])
      && multiset(r) == multiset(folders) - multiset{folders[index]}
  {
    assert folders == folders[..index] + [folders[index]] + folders[index + 1..];
    assert SpliceOne(folders, index) == folders[..index] + folders[index + 1..];
  }

  /** Removing never adds a folder: the group stays within nine folders and free
      of duplicates, whatever the index. */
  lemma RemoveKeepsGroupValid(folders: seq<Path>, index: int)
    requires |folders| <= MaxFolders && NoDuplicates(folders)
    ensures var r := SpliceOne(folders, index);
      |r| <= |folders| && NoDuplicates(r) && forall p :: p in r ==> p in folders
  {
    var start := SpliceStart(|folders|, index);
    if start < |folders| {
      RemoveSlotKeepsDistinct(folders, start);
    }
  }

  lemma RemoveSlotKeepsDistinct(folders: seq<Path>, k: nat)
    requires k < |folders| && NoDuplicates(folders)
    ensures var r := RemoveSlot(folders, k);
      |r| < |folders| && NoDuplicates(r) && forall p :: p in r ==> p in folders
  {
    var r := RemoveSlot(folders, k);
    assert forall i :: 0 <= i < |r| ==> r[i] == folders[if i < k then i else i + 1];
  }

  class QuickSortGroups {
    /** `quickSortGroups`: the folders of each group, by group id. */
    var groups: map<string, seq<Path>>
    /** `currentQuickSortGroup`. */
    var currentGroup: string

    /** Every group holds at most nine folders, none twice. */
    ghost predicate Valid()
      reads this
    {
      forall g :: g in groups ==> |groups[g]| <= MaxFolders && NoDuplicates(groups[g])
    }

    /** `quickSortGroups[currentQuickSortGroup] || []`. */
    function CurrentFolders(): (folders: seq<Path>)
      reads this
      ensures currentGroup !in groups ==> folders == []
      ensures Valid() ==> |folders| <= MaxFolders && NoDuplicates(folders)
    {
      if currentGroup in groups then groups[currentGroup] else []
    }

    /** The default groups: three empty groups with the first selected. */
    constructor()
      ensures Valid()
      ensures groups == map["group1" := [], "group2" := [], "group3" := []] && currentGroup == "group1"
    {
      groups := map["group1" := [], "group2" := [], "group3" := []];
      currentGroup := "group1";
    }

    /** Switching to a tab's group. */
    method SelectGroup(group: string)
      modifies this
      ensures groups == old(groups) && currentGroup == group
    {
      currentGroup := group;
    }

    /** `addQuickMoveFolder`, with the folder picker's answer as a parameter. */
    method AddFolder(selected: Option<string>)
      modifies this
      ensures old(Valid()) ==> Valid()
      ensures currentGroup == old(currentGroup)
      ensures AddedFolders(old(CurrentFolders()), selected).None? ==> groups == old(groups)
      ensures AddedFolders(old(CurrentFolders()), selected).Some? ==>
        groups == old(groups)[currentGroup := AddedFolders(old(CurrentFolders()), selected).value]
    {
      var folders := CurrentFolders();
      if |folders| >= MaxFolders {
        return;
      }
      if selected.Some? && selected.value != [] && selected.value !in folders {
        if Valid() {
          AddKeepsGroupValid(folders, selected);
        }
        groups := groups[currentGroup := folders + [selected.value]];
      }
    }

    /** `removeQuickMoveFolder(index)`: the group is written back even when the
      index removes nothing. */
    method RemoveFolder(index: int)
      modifies this
      ensures old(Valid()) ==> Valid()
      ensures currentGroup == old(currentGroup)
      ensures groups == old(groups)[currentGroup := SpliceOne(old(CurrentFolders()), index)]
    {
      var folders := CurrentFolders();
      if Valid() {
        RemoveKeepsGroupValid(folders, index);
      }
      groups := groups[currentGroup := SpliceOne(folders, index)];
    }
  }
}
