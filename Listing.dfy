/** The viewer's file list as a value: the full directory listing, the filtered
    view `images` and the cursor `currentIndex`, with every transition the
    handlers apply to them. */
module Listing {
  import opened Wrappers
  import opened Paths
  import opened Formats
  import opened Ordering

  /** `window.fullDirectoryListing` (absent until a directory is loaded), `images`
      and `currentIndex`. */
  datatype View = View(listing: Option<seq<Path>>, images: seq<Path>, index: nat)

  /** `currentIndex` points into `images`, or is 0 when `images` is empty. */
  predicate IndexInRange(images: seq<Path>, index: nat)
  {
    if images == [] then index == 0 else index < |images|
  }

  /** The invariant every handler keeps: the cursor is in range and every file in
      the view is one of the listing's (the view holds no file the listing lacks). */
  predicate Consistent(v: View)
  {
    IndexInRange(v.images, v.index)
    && (v.listing.None? ==> v.images == [])
    && (v.listing.Some? ==> multiset(v.images) <= multiset(v.listing.value))
  }

  /** `Math.min(index, Math.max(0, length - 1))`. */
  function Clamp(index: nat, length: nat): (k: nat)
    ensures length == 0 ==> k == 0
    ensures length > 0 ==> k < length
    ensures k <= index
    ensures index < length ==> k == index
    ensures 0 < length <= index ==> k == length - 1
  {
    if length == 0 then 0 else if index < length then index else length - 1
  }

  /** Moving the cursor to another position in the view keeps the view consistent. */
  lemma MoveCursorKeepsConsistent(v: View, k: nat)
    requires Consistent(v) && IndexInRange(v.images, k)
    ensures Consistent(v.(index := k))
  {
  }

  /** `filterFiles()`: the view becomes the matching files of the listing, in
      listing order, and the cursor is clamped; without a listing nothing happens. */
  function Refilter(v: View, formats: seq<string>): (r: View)
    ensures v.listing.None? ==> r == v
    ensures v.listing.Some? ==> r.listing == v.listing && Consistent(r)
  {
    if v.listing.None? then v
    else
      var images := FilterFiles(v.listing.value, formats);
      View(v.listing, images, Clamp(v.index, |images|))
  }

  /** Refiltering shows exactly the listed files that pass the filter, in listing
      order, and keeps the cursor where it was whenever it still lies in the view. */
  lemma RefilterSelects(v: View, formats: seq<string>)
    requires v.listing.Some?
    ensures var r := Refilter(v, formats);
      && (forall p :: p in r.images <==> p in v.listing.value && MatchesFormats(p, formats))
      && (forall p :: multiset(r.images)[p] == if MatchesFormats(p, formats) then multiset(v.listing.value)[p] else 0)
      && IsSubsequence(r.images, v.listing.value)
      && (v.index < |r.images| ==> r.index == v.index)
  {
    FilterFilesSelects(v.listing.value, formats);
  }

  /** `s.splice(i, 1)`. */
  function RemoveAt(s: seq<Path>, i: nat): (r: seq<Path>)
    requires i < |s|
    ensures |r| == |s| - 1
    ensures forall k :: 0 <= k < i ==> r[k] == s[k]
    ensures multiset(r) == multiset(s) - multiset{s[i]}
  {
    assert s == s[..i] + [s[i]] + s[i + 1..];
    s[..i] + s[i + 1..]
  }

  /** After `s.splice(i, 1)` the entries behind `i` sit one place earlier. */
  lemma RemoveAtShifts(s: seq<Path>, i: nat)
    requires i < |s|
    ensures forall k :: i <= k < |s| - 1 ==> RemoveAt(s, i)[k] == s[k + 1]
  {
    var r := RemoveAt(s, i);
    forall k | i <= k < |s| - 1
      ensures r[k] == s[k + 1]
    {
      assert r[k] == s[i + 1..][k - i];
    }
  }

  /** The splice and clamp after a successful delete or move of the current file:
      the cursor stays on the same position, now holding the next file, or moves
      to the new last file when the removed one was last. */
  function RemoveCurrent(v: View): (r: View)
    requires v.images != [] && v.index < |v.images|
    ensures r.listing == v.listing
    ensures |r.images| == |v.images| - 1
    ensures multiset(r.images) == multiset(v.images) - multiset{v.images[v.index]}
    ensures forall k :: 0 <= k < v.index ==> r.images[k] == v.images[k]
    ensures v.index < |r.images| ==> r.index == v.index && r.images[r.index] == v.images[v.index + 1]
    ensures v.index == |r.images| ==> IndexInRange(r.images, r.index) && (r.images != [] ==> r.index == |r.images| - 1)
    ensures Consistent(v) ==> Consistent(r)
  {
    var images := RemoveAt(v.images, v.index);
    RemoveAtShifts(v.images, v.index);
    View(v.listing, images, if v.index >= |images| then (if |images| == 0 then 0 else |images| - 1) else v.index)
  }

  /** `s.indexOf(x)`: the first position of `x`, or -1. */
  function IndexOf(s: seq<Path>, x: Path): (i: int)
    ensures x !in s <==> i == -1
    ensures x in s ==> 0 <= i < |s| && s[i] == x && forall k :: 0 <= k < i ==> s[k] != x
  {
    if s == [] then -1
    else if s[0] == x then 0
    else
      var i := IndexOf(s[1..], x);
      if i == -1 then -1 else i + 1
  }

  /** `const i = s.indexOf(x); if (i > -1) s.splice(i, 1)`. */
  function RemoveFirst(s: seq<Path>, x: Path): (r: seq<Path>)
    ensures multiset(r) == multiset(s) - multiset{x}
    ensures x !in s ==> r == s
  {
    var i := IndexOf(s, x);
    if i == -1 then s else RemoveAt(s, i)
  }

  /** The splice takes out the first `x` only, and every other entry keeps its
      place in the order. */
  lemma RemoveFirstKeepsOrder(s: seq<Path>, x: Path)
    requires x in s
    ensures var i := IndexOf(s, x); RemoveFirst(s, x) == s[..i] + s[i + 1..]
  {
    RemoveAtShifts(s, IndexOf(s, x));
  }

  /** `cleanupMissingFile(f)`: `f` leaves the view and the listing; the cursor is
      clamped only when files remain. */
  function RemoveMissing(v: View, f: Path): (r: View)
    ensures multiset(r.images) == multiset(v.images) - multiset{f}
    ensures r.listing.Some? == v.listing.Some?
    ensures v.listing.Some? ==> multiset(r.listing.value) == multiset(v.listing.value) - multiset{f}
    ensures r.images != [] ==> r.index == Clamp(v.index, |r.images|)
    ensures r.images == [] ==> r.index == v.index
    ensures Consistent(v) ==> Consistent(r)
  {
    var images := RemoveFirst(v.images, f);
    var listing := if v.listing.Some? then Some(RemoveFirst(v.listing.value, f)) else None;
    View(listing, images, if images == [] then v.index else Clamp(v.index, |images|))
  }

  /** Cleanup splices out only the first occurrence of the missing file, from the
      view and from the listing; every other file keeps its place in the order. */
  lemma {:induction false} RemoveMissingKeepsOrder(v: View, f: Path)
    ensures var r := RemoveMissing(v, f);
      && (f !in v.images ==> r.images == v.images)
      && (f in v.images ==> var i := IndexOf(v.images, f); r.images == v.images[..i] + v.images[i + 1..])
    ensures var r := RemoveMissing(v, f);
      && (v.listing.Some? && f !in v.listing.value ==> r.listing == v.listing)
      && (v.listing.Some? && f in v.listing.value ==>
            var i := IndexOf(v.listing.value, f); r.listing.value == v.listing.value[..i] + v.listing.value[i + 1..])
  {
    if f in v.images {
      RemoveFirstKeepsOrder(v.images, f);
    }
    if v.listing.Some? && f in v.listing.value {
      RemoveFirstKeepsOrder(v.listing.value, f);
    }
  }

  /** The work of `refreshDirectoryListing` once its guard has passed: the rescanned
      listing replaces the old one, the view is refiltered, and the file that was
      current stays current when it is still in the view. The source asks whether
      `images[currentIndex]` is truthy, which differs from the index test here only
      for an empty path, and a directory scan never yields one. */
  function Refreshed(v: View, rescan: seq<Path>, formats: seq<string>): (r: View)
    ensures r.listing == Some(rescan)
    ensures v.index < |v.images| && v.images[v.index] in r.images ==>
      r.index < |r.images| && r.images[r.index] == v.images[v.index]
    ensures v.index < |v.images| && v.images[v.index] !in r.images ==> r.index == Clamp(v.index, |r.images|)
    ensures Consistent(v) ==> Consistent(r)
  {
    var images := FilterFiles(rescan, formats);
    var index :=
      if v.index < |v.images| then
        var i := IndexOf(images, v.images[v.index]);
        if i != -1 then i else Clamp(v.index, |images|)
      else v.index;
    View(Some(rescan), images, index)
  }
  /** A refresh shows exactly the re-scanned files that pass the filter, in the
      order of the new scan. */
  lemma RefreshedSelects(v: View, rescan: seq<Path>, formats: seq<string>)
    ensures var r := Refreshed(v, rescan, formats);
      && (forall p :: p in r.images <==> p in rescan && MatchesFormats(p, formats))
      && (forall p :: multiset(r.images)[p] == if MatchesFormats(p, formats) then multiset(rescan)[p] else 0)
      && IsSubsequence(r.images, rescan)
  {
    FilterFilesSelects(rescan, formats);
  }


  /** `listing.push(p); listing.sort()` unless `listing.includes(p)`. */
  function AddToListing(listing: seq<Path>, p: Path): (r: seq<Path>)
    ensures p in r
    ensures p in listing ==> r == listing
    ensures p !in listing ==> multiset(r) == multiset(listing) + multiset{p}
  {
    if p in listing then listing
    else
      assert p in multiset(Sort(listing + [p]));
      Sort(listing + [p])
  }

  /** A file that was not in the listing is added in sorted order. */
  lemma AddToListingSorted(listing: seq<Path>, p: Path)
    requires p !in listing
    ensures SortedBy(AddToListing(listing, p), DefaultLess)
  {
    SortIsSorted(listing + [p]);
  }

  /** `s.splice(k, 0, p)`. */
  function InsertAt(s: seq<Path>, k: nat, p: Path): (r: seq<Path>)
    requires k <= |s|
    ensures |r| == |s| + 1 && r[k] == p
    ensures forall i :: 0 <= i < k ==> r[i] == s[i]
    ensures multiset(r) == multiset(s) + multiset{p}
  {
    assert s == s[..k] + s[k..];
    s[..k] + [p] + s[k..]
  }

  /** Splicing an entry out and back in at the same place gives the sequence back. */
  lemma RemoveThenInsert(s: seq<Path>, k: nat)
    requires k < |s|
    ensures InsertAt(RemoveAt(s, k), k, s[k]) == s
  {
    var r := RemoveAt(s, k);
    assert r[..k] == s[..k];
    assert r[k..] == s[k + 1..];
    assert s == s[..k] + [s[k]] + s[k + 1..];
  }

  /** After `s.splice(k, 0, p)` the entries from `k` on sit one place later. */
  lemma InsertAtShifts(s: seq<Path>, k: nat, p: Path)
    requires k <= |s|
    ensures forall i :: k < i <= |s| ==> InsertAt(s, k, p)[i] == s[i - 1]
  {
    var r := InsertAt(s, k, p);
    forall i | k < i <= |s|
      ensures r[i] == s[i - 1]
    {
      assert r[i] == s[k..][i - k - 1];
    }
  }

  /** The success path of `handleUndo` once the restored file `p` is known to
      exist: `p` joins the listing unless already there; when it passes the
      filter it is inserted before the first view entry not less than it, unless
      already in the view, and becomes current. */
  function Restored(v: View, p: Path, formats: seq<string>, less: (Path, Path) -> bool): (r: View)
    requires v.listing.Some?
    ensures r.listing == Some(AddToListing(v.listing.value, p))
    ensures !MatchesFormats(p, formats) ==> r.images == v.images && r.index == v.index
    ensures MatchesFormats(p, formats) ==> r.index < |r.images| && r.images[r.index] == p
    ensures p in v.images ==> r.images == v.images
    ensures MatchesFormats(p, formats) && p !in v.images ==>
      var k := FirstNotLess(v.images, p, less);
      r.images == InsertAt(v.images, k, p) && r.index == k
  {
    var listing := AddToListing(v.listing.value, p);
    if !MatchesFormats(p, formats) then View(Some(listing), v.images, v.index)
    else if p !in v.images then
      var k := FirstNotLess(v.images, p, less);
      View(Some(listing), InsertAt(v.images, k, p), k)
    else View(Some(listing), v.images, IndexOf(v.images, p))
  }

  /** The success path of the undo handler: the restored file goes back into the listing and,
      when it passes the filter, into the view at its sorted place, where the cursor lands. */
  method Restore(v: View, p: Path, formats: seq<string>, less: (Path, Path) -> bool) returns (r: View)
    requires v.listing.Some?
    ensures r == Restored(v, p, formats, less)
  {
    r := View(Some(AddToListing(v.listing.value, p)), v.images, v.index);
    if MatchesFormats(p, formats) {
      var k := InsertIndex(v.images, p, less);
      if p !in v.images {
        r := r.(images := InsertAt(v.images, k, p), index := k);
      } else {
        r := r.(index := IndexOf(v.images, p));
      }
    }
  }

  /** A successful undo keeps the view consistent with the listing. */
  lemma RestoredConsistent(v: View, p: Path, formats: seq<string>, less: (Path, Path) -> bool)
    requires v.listing.Some? && Consistent(v)
    ensures Consistent(Restored(v, p, formats, less))
  {
    var r := Restored(v, p, formats, less);
    if MatchesFormats(p, formats) && p !in v.images {
      assert multiset(v.images)[p] == 0;
      assert multiset(r.listing.value)[p] >= 1;
      forall x
        ensures multiset(r.images)[x] <= multiset(r.listing.value)[x]
      {
        assert multiset(v.images)[x] <= multiset(v.listing.value)[x];
      }
    } else {
      assert multiset(v.images) <= multiset(v.listing.value) <= multiset(r.listing.value);
    }
  }

  /** Every entry comes strictly before the ones after it: a sorted view without
      repeated files. */
  ghost predicate StrictlySortedBy(s: seq<Path>, less: (Path, Path) -> bool)
  {
    forall i, j :: 0 <= i < j < |s| ==> less(s[i], s[j])
  }

  /** In a strictly sorted view the current file occurs once, so removing it
      removes it from the view altogether. */
  lemma RemovedFileLeavesView(v: View, less: (Path, Path) -> bool)
    requires v.images != [] && v.index < |v.images|
    requires IsStrictTotalOrder(less) && StrictlySortedBy(v.images, less)
    ensures v.images[v.index] !in RemoveCurrent(v).images
  {
    var p := v.images[v.index];
    var w := RemoveCurrent(v);
    if p in w.images {
      assert false;
    }
  }

  /** In a strictly sorted view the insertion point of the removed current file
      is the position it was removed from. */
  lemma InsertionPointIsOldPosition(v: View, less: (Path, Path) -> bool)
    requires v.images != [] && v.index < |v.images|
    requires IsStrictTotalOrder(less) && StrictlySortedBy(v.images, less)
    ensures FirstNotLess(RemoveCurrent(v).images, v.images[v.index], less) == v.index
  {
    var p := v.images[v.index];
    var w := RemoveCurrent(v);
    var k := FirstNotLess(w.images, p, less);
    if k < v.index {
      assert false;
    }
    if k > v.index {
      assert false;
    }
  }

  /** Deleting the current file of a view sorted by `less` and then undoing the
      delete gives back the same view: the file returns to its old position and
      is current again. */
  lemma UndoRestoresView(v: View, formats: seq<string>, less: (Path, Path) -> bool)
    requires Consistent(v) && v.images != []
    requires IsStrictTotalOrder(less) && StrictlySortedBy(v.images, less)
    requires MatchesFormats(v.images[v.index], formats)
    ensures Restored(RemoveCurrent(v), v.images[v.index], formats, less) == v
  {
    var p := v.images[v.index];
    var w := RemoveCurrent(v);
    assert p in multiset(v.images);
    assert p in v.listing.value;
    RemovedFileLeavesView(v, less);
    InsertionPointIsOldPosition(v, less);
    RemoveThenInsert(v.images, v.index);
  }

  /** Putting a file back into a strictly sorted view that lacks it keeps the
      view strictly sorted. */
  lemma RestoredKeepsSorted(v: View, p: Path, formats: seq<string>, less: (Path, Path) -> bool)
    requires v.listing.Some?
    requires IsStrictTotalOrder(less) && StrictlySortedBy(v.images, less)
    ensures StrictlySortedBy(Restored(v, p, formats, less).images, less)
  {
    var r := Restored(v, p, formats, less);
    if MatchesFormats(p, formats) && p !in v.images {
      var k := FirstNotLess(v.images, p, less);
      forall i, j | 0 <= i < j < |r.images|
        ensures less(r.images[i], r.images[j])
      {
        if j == k {
          assert r.images[i] == v.images[i];
        } else if i == k {
          assert r.images[j] == v.images[j - 1];
          assert !less(v.images[j - 1], p);
          if j - 1 > k {
            assert less(v.images[k], v.images[j - 1]);
          }
          assert v.images[j - 1] != p;
        } else {
          var a := if i < k then i else i - 1;
          var b := if j < k then j else j - 1;
          assert r.images[i] == v.images[a] && r.images[j] == v.images[b];
        }
      }
    }
  }
}
