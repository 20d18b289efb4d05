/** Which files the viewer shows: the enabled extensions, the case-insensitive
    `\.(ext1|ext2|…)$` match and the filter over the directory listing. */
module Formats {
  import opened Paths
  import opened Text

  /** One format checkbox: its state and its comma-separated `data-format` list. */
  datatype FormatCheckbox = FormatCheckbox(checked: bool, format: string)

  /** A media kind (images or videos): its master toggle and its checkboxes. */
  datatype FormatGroup = FormatGroup(toggle: bool, checkboxes: seq<FormatCheckbox>)

  /** The formats one group contributes: the pieces of every checked box, in
      order, and nothing at all when the group's toggle is off. */
  function GroupFormats(g: FormatGroup): seq<string>
  {
    if g.toggle then CheckedFormats(g.checkboxes) else []
  }

  /** The pieces of the checked boxes, in order. */
  function CheckedFormats(boxes: seq<FormatCheckbox>): seq<string>
  {
    if boxes == [] then []
    else
      var rest := CheckedFormats(boxes[1..]);
      if boxes[0].checked then Split(boxes[0].format, ',') + rest else rest
  }

  /** `getEnabledFormats()`: the image group's formats followed by the video group's. */
  function EnabledFormats(imageGroup: FormatGroup, videoGroup: FormatGroup): seq<string>
  {
    GroupFormats(imageGroup) + GroupFormats(videoGroup)
  }

  /** An extension is collected exactly when some checked box lists it. */
  lemma {:induction false} CheckedFormatsMembers(boxes: seq<FormatCheckbox>)
    ensures forall ext :: ext in CheckedFormats(boxes) <==>
      exists i :: 0 <= i < |boxes| && boxes[i].checked && ext in Split(boxes[i].format, ',')
  {
    if boxes != [] {
      CheckedFormatsMembers(boxes[1..]);
      assert forall i :: 0 < i < |boxes| ==> boxes[i] == boxes[1..][i - 1];
    }
  }

  /** A group contributes nothing when its toggle is off, and otherwise exactly the
      extensions its checked boxes list. */
  lemma GroupFormatsMembers(g: FormatGroup)
    ensures !g.toggle ==> GroupFormats(g) == []
    ensures forall ext :: ext in GroupFormats(g) <==>
      g.toggle && exists i :: 0 <= i < |g.checkboxes| && g.checkboxes[i].checked && ext in Split(g.checkboxes[i].format, ',')
  {
    CheckedFormatsMembers(g.checkboxes);
  }

  /** The enabled formats are both groups' formats, the image group's first. */
  lemma EnabledFormatsMembers(imageGroup: FormatGroup, videoGroup: FormatGroup)
    ensures var formats := EnabledFormats(imageGroup, videoGroup);
      && (forall ext :: ext in formats <==> ext in GroupFormats(imageGroup) || ext in GroupFormats(videoGroup))
      && formats[..|GroupFormats(imageGroup)|] == GroupFormats(imageGroup)
      && formats[|GroupFormats(imageGroup)|..] == GroupFormats(videoGroup)
  {
    var formats := EnabledFormats(imageGroup, videoGroup);
    assert formats[..|GroupFormats(imageGroup)|] == GroupFormats(imageGroup);
  }

  /** `Array.prototype.join` with a one-character separator: the empty list joins to "". */
  function JsJoin(parts: seq<string>, sep: char): string
  {
    if parts == [] then "" else JoinWith(parts, sep)
  }

  /** The alternatives of the group `(…)` in `\.(formats.join('|'))$`. */
  function Alternatives(formats: seq<string>): (alts: seq<string>)
    ensures |alts| >= 1
  {
    Split(JsJoin(formats, '|'), '|')
  }

  /** With no format enabled the pattern is `\.()$`: its only alternative is empty. */
  lemma NoFormatsAlternative()
    ensures Alternatives([]) == [""]
  {
  }

  /** Formats free of `|` are exactly the alternatives of the pattern. */
  lemma AlternativesOfFormats(formats: seq<string>)
    requires formats != []
    requires forall i :: 0 <= i < |formats| ==> '|' !in formats[i]
    ensures Alternatives(formats) == formats
  {
    JoinThenSplit(formats, '|');
  }

  /** `formatRegex.test(path)` for `new RegExp('\\.(' + formats.join('|') + ')$', 'i')`. */
  predicate MatchesFormats(path: string, formats: seq<string>)
  {
    MatchesSome(path, Alternatives(formats))
  }

  /** The alternation `(alt1|alt2|…)$`, tried left to right. */
  predicate MatchesSome(path: string, alts: seq<string>)
    decreases |alts|
  {
    alts != [] && (HasExtension(path, alts[0]) || MatchesSome(path, alts[1..]))
  }

  /** The alternation matches exactly when one of its alternatives does. */
  lemma {:induction false} MatchesSomeIffAny(path: string, alts: seq<string>)
    ensures MatchesSome(path, alts) <==> exists alt :: alt in alts && HasExtension(path, alt)
    decreases |alts|
  {
    if alts != [] {
      MatchesSomeIffAny(path, alts[1..]);
      assert alts == [alts[0]] + alts[1..];
    }
  }

  /** `path` ends in a dot and `ext`, letters compared without regard to case. */
  predicate HasExtension(path: string, ext: string)
  {
    EndsWithIgnoringCase(path, "." + ext)
  }

  /** With nothing enabled the filter keeps exactly the paths that end in a dot. */
  lemma {:induction false} NoFormatsMatchTrailingDot(path: string)
    ensures MatchesFormats(path, []) <==> |path| > 0 && path[|path| - 1] == '.'
  {
    NoFormatsAlternative();
    MatchesSomeIffAny(path, [""]);
    if |path| > 0 && path[|path| - 1] == '.' {
      assert path[|path| - 1..] == ".";
      assert HasExtension(path, "");
    }
    if MatchesFormats(path, []) {
      var alt :| alt in Alternatives([]) && HasExtension(path, alt);
      assert alt == "";
      assert FoldCaseAll(path[|path| - 1..])[0] == '.';
    }
  }

  /** With `|`-free formats a path passes exactly when it ends in a dot and one
      of the enabled extensions, compared without regard to case. */
  lemma MatchesEnabledExtension(path: string, formats: seq<string>)
    requires formats != []
    requires forall i :: 0 <= i < |formats| ==> '|' !in formats[i]
    ensures MatchesFormats(path, formats) <==>
      exists i :: 0 <= i < |formats| && HasExtension(path, formats[i])
  {
    AlternativesOfFormats(formats);
    MatchesSomeIffAny(path, formats);
  }

  /** The extensions `isVideo` recognises. */
  const VideoExtensions: seq<string> := ["mp4", "webm", "mov"]

  /** `isVideo`: the case-insensitive suffix `.mp4`, `.webm` or `.mov`. */
  predicate IsVideo(path: string)
  {
    HasExtension(path, "mp4") || HasExtension(path, "webm") || HasExtension(path, "mov")
  }

  /** `isVideo` is the format match over the three video extensions. */
  lemma IsVideoMatchesVideoFormats(path: string)
    ensures IsVideo(path) <==> MatchesFormats(path, VideoExtensions)
  {
    MatchesEnabledExtension(path, VideoExtensions);
  }

  /** `a` is `b` with some elements dropped, the rest kept in order. */
  predicate IsSubsequence<T(==)>(a: seq<T>, b: seq<T>)
    decreases |b|
  {
    if a == [] then true
    else if b == [] then false
    else if a[0] == b[0] then IsSubsequence(a[1..], b[1..])
    else IsSubsequence(a, b[1..])
  }

  /** `listing.filter(file => formatRegex.test(file))`. */
  function FilterFiles(listing: seq<Path>, formats: seq<string>): (kept: seq<Path>)
    ensures multiset(kept) <= multiset(listing)
  {
    if listing == [] then []
    else
      var rest := FilterFiles(listing[1..], formats);
      assert listing == [listing[0]] + listing[1..];
      if MatchesFormats(listing[0], formats) then [listing[0]] + rest else rest
  }

  /** The filter keeps every listed file that matches, as often as it is listed,
      drops every other one, and keeps the listing's order. */
  lemma {:induction false} FilterFilesSelects(listing: seq<Path>, formats: seq<string>)
    ensures var kept := FilterFiles(listing, formats);
      && (forall p :: p in kept <==> p in listing && MatchesFormats(p, formats))
      && (forall p :: multiset(kept)[p] == if MatchesFormats(p, formats) then multiset(listing)[p] else 0)
      && IsSubsequence(kept, listing)
  {
    if listing != [] {
      FilterFilesSelects(listing[1..], formats);
      assert listing == [listing[0]] + listing[1..];
    }
  }
}
